/** Evaluating a condition string: trimming, tokenizing, and the parser object that moves a cursor over
    the tokens and computes the value without building a tree. */
module ConditionEvaluator {
  import opened Common
  import opened Whitespace
  import opened ConditionLexer
  import opened ConditionParser

  /** The parser's result on the tokens from a position on, told by the tree it amounts to. */
  ghost predicate Agrees<T>(parsed: Option<(T, seq<Token>)>, e: T -> Expr, v: Option<Value>, rest: seq<Token>) {
    match parsed
    case None => v == None
    case Some((tree, left)) => v == Some(Eval(e(tree))) && left == rest
  }

  lemma ConjStep(tree: Conj, ts: seq<Token>, c: Cmp, rest: seq<Token>)
    requires ts != [] && ts[0] == And && ParseCmp(ts[1..]) == Some((c, rest))
    ensures ConjLoop(tree, ts) == ConjLoop(AndMore(tree, c), rest)
    ensures Eval(ConjExpr(AndMore(tree, c))) == B(Truthy(Eval(ConjExpr(tree))) && Truthy(Eval(CmpExpr(c))))
  {}

  lemma ConjEnd(tree: Conj, ts: seq<Token>)
    ensures ts == [] || ts[0] != And ==> ConjLoop(tree, ts) == Some((tree, ts))
    ensures ts != [] && ts[0] == And && ParseCmp(ts[1..]).None? ==> ConjLoop(tree, ts) == None
  {}

  lemma DisjStep(tree: Disj, ts: seq<Token>, c: Conj, rest: seq<Token>)
    requires ts != [] && ts[0] == Or && ParseConj(ts[1..]) == Some((c, rest))
    ensures DisjLoop(tree, ts) == DisjLoop(OrMore(tree, c), rest)
    ensures Eval(DisjExpr(OrMore(tree, c))) == B(Truthy(Eval(DisjExpr(tree))) || Truthy(Eval(ConjExpr(c))))
  {}

  lemma DisjEnd(tree: Disj, ts: seq<Token>)
    ensures ts == [] || ts[0] != Or ==> DisjLoop(tree, ts) == Some((tree, ts))
    ensures ts != [] && ts[0] == Or && ParseConj(ts[1..]).None? ==> DisjLoop(tree, ts) == None
  {}

  class Parser {
    const tokens: seq<Token>
    var pos: nat

    constructor (tokens: seq<Token>)
      ensures this.tokens == tokens && pos == 0
    {
      this.tokens, pos := tokens, 0;
    }

    ghost function Rest(): seq<Token>
      requires pos <= |tokens|
      reads this
    {
      tokens[pos..]
    }

    method Primary() returns (v: Option<Value>)
      requires pos <= |tokens|
      modifies this
      ensures old(pos) <= pos <= |tokens| && (v.Some? ==> old(pos) < pos)
      ensures Agrees(ParsePrimary(old(Rest())), PrimaryExpr, v, Rest())
      decreases |tokens| - pos, 0
    {
      if pos == |tokens| { return None; }
      var token := tokens[pos];
      assert tokens[pos..][1..] == tokens[pos + 1..];
      if token == LParen {
        pos := pos + 1;
        var result := Disjunction();
        if result.None? || pos == |tokens| || tokens[pos] != RParen { return None; }
        assert tokens[pos..][1..] == tokens[pos + 1..];
        pos := pos + 1;
        return result;
      }
      if token == True { pos := pos + 1; return Some(B(true)); }
      if token == False { pos := pos + 1; return Some(B(false)); }
      if token.Num? && IsNumber(token.text) { pos := pos + 1; return Some(N(NumberValue(token.text))); }
      return None;
    }

    method Comparison() returns (v: Option<Value>)
      requires pos <= |tokens|
      modifies this
      ensures old(pos) <= pos <= |tokens| && (v.Some? ==> old(pos) < pos)
      ensures Agrees(ParseCmp(old(Rest())), CmpExpr, v, Rest())
      decreases |tokens| - pos, 1
    {
      var left := Primary();
      if left.None? { return None; }
      if pos < |tokens| && tokens[pos].Rel? {
        var op := tokens[pos].op;
        assert tokens[pos..][1..] == tokens[pos + 1..];
        pos := pos + 1;
        var right := Primary();
        if right.None? { return None; }
        return Some(B(CompareValues(op, left.value, right.value)));
      }
      return left;
    }

    method Conjunction() returns (v: Option<Value>)
      requires pos <= |tokens|
      modifies this
      ensures old(pos) <= pos <= |tokens| && (v.Some? ==> old(pos) < pos)
      ensures Agrees(ParseConj(old(Rest())), ConjExpr, v, Rest())
      decreases |tokens| - pos, 2
    {
      v := Comparison();
      if v.Some? {
        v := AndLoop(v.value, OneCmp(ParseCmp(old(Rest())).value.0));
      }
    }

    /** While an && follows, read another comparison. */
    method AndLoop(first: Value, ghost start: Conj) returns (v: Option<Value>)
      requires pos <= |tokens| && first == Eval(ConjExpr(start))
      modifies this
      ensures old(pos) <= pos <= |tokens|
      ensures Agrees(ConjLoop(start, old(Rest())), ConjExpr, v, Rest())
      decreases |tokens| - pos, 2
    {
      var left := first;
      ghost var tree := start;
      while pos < |tokens| && tokens[pos] == And
        invariant old(pos) <= pos <= |tokens| && left == Eval(ConjExpr(tree))
        invariant ConjLoop(start, old(Rest())) == ConjLoop(tree, Rest())
        decreases |tokens| - pos
      {
        ghost var here := Rest();
        assert here[1..] == tokens[pos + 1..];
        pos := pos + 1;
        var right := Comparison();
        if right.None? {
          ConjEnd(tree, here);
          return None;
        }
        left := B(Truthy(left) && Truthy(right.value));
        ghost var c := ParseCmp(here[1..]).value.0;
        assert ParseCmp(here[1..]) == Some((c, Rest()));
        ConjStep(tree, here, c, Rest());
        tree := AndMore(tree, c);
      }
      ConjEnd(tree, Rest());
      return Some(left);
    }

    method Disjunction() returns (v: Option<Value>)
      requires pos <= |tokens|
      modifies this
      ensures old(pos) <= pos <= |tokens| && (v.Some? ==> old(pos) < pos)
      ensures Agrees(ParseDisj(old(Rest())), DisjExpr, v, Rest())
      decreases |tokens| - pos, 4
    {
      v := Conjunction();
      if v.Some? {
        v := OrLoop(v.value, OneConj(ParseConj(old(Rest())).value.0));
      }
    }

    /** While an || follows, read another conjunction. */
    method OrLoop(first: Value, ghost start: Disj) returns (v: Option<Value>)
      requires pos <= |tokens| && first == Eval(DisjExpr(start))
      modifies this
      ensures old(pos) <= pos <= |tokens|
      ensures Agrees(DisjLoop(start, old(Rest())), DisjExpr, v, Rest())
      decreases |tokens| - pos, 3
    {
      var left := first;
      ghost var tree := start;
      while pos < |tokens| && tokens[pos] == Or
        invariant old(pos) <= pos <= |tokens| && left == Eval(DisjExpr(tree))
        invariant DisjLoop(start, old(Rest())) == DisjLoop(tree, Rest())
        decreases |tokens| - pos
      {
        ghost var here := Rest();
        assert here[1..] == tokens[pos + 1..];
        pos := pos + 1;
        var right := Conjunction();
        if right.None? {
          DisjEnd(tree, here);
          return None;
        }
        left := B(Truthy(left) || Truthy(right.value));
        ghost var c := ParseConj(here[1..]).value.0;
        DisjStep(tree, here, c, Rest());
        tree := OrMore(tree, c);
      }
      DisjEnd(tree, Rest());
      return Some(left);
    }
  }

  // ---- conditions ----

  /** The value of a condition: true when the string is an expression with a truthy value. */
  predicate ConditionValue(s: string) {
    var ts := Lex(s);
    if ts.None? then false
    else
      var d := Parse(ts.value);
      d.Some? && Truthy(Eval(DisjExpr(d.value)))
  }

  method EvaluateCondition(condition: string) returns (r: bool)
    ensures r == ConditionValue(condition)
  {
    var trimmed := Trim(condition);
    TrimKeepsTokens(condition);
    var tokens := Tokenize(trimmed);
    if tokens.None? { return false; }
    var parser := new Parser(tokens.value);
    assert tokens.value[0..] == tokens.value;
    var result := parser.Disjunction();
    if result.None? || parser.pos < |parser.tokens| { return false; }
    return Truthy(result.value);
  }

  lemma {:induction false} TrimLeftKeeps(s: string)
    ensures Lex(TrimLeft(s)) == Lex(s)
  {
    if s != "" && IsSpace(s[0]) { TrimLeftKeeps(s[1..]); }
  }

  lemma {:induction false} TrimRightKeeps(s: string)
    ensures Lex(TrimRight(s)) == Lex(s)
  {
    if s != "" && IsSpace(s[|s| - 1]) {
      var u := s[..|s| - 1];
      TrimRightKeeps(u);
      LexTrailing(u, s[|s| - 1]);
      assert s == u + [s[|s| - 1]];
    }
  }

  lemma TrimKeepsTokens(s: string)
    ensures Lex(Trim(s)) == Lex(s)
  {
    TrimLeftKeeps(s);
    TrimRightKeeps(TrimLeft(s));
  }

  lemma DigitRunTrailing(u: string, c: char)
    requires IsSpace(c)
    ensures DigitRun(u + [c]) == DigitRun(u)
  {
    DigitRunHolds(u);
    DigitRunIs(u + [c], DigitRun(u));
  }

  lemma LenFromTrailing(u: string, k: nat, m: nat, c: char)
    requires IsSpace(c) && k < |u| && k + 1 + m <= |u|
    ensures LenFrom(u + [c], k, m) == LenFrom(u, k, m)
  {
    var w := u + [c];
    assert forall i | 0 <= i < |u| :: w[i] == u[i];
    assert w[|u|] == c && !IsDigit(c) && c != '.';
  }

  lemma UnsignedTrailing(u: string, c: char)
    requires IsSpace(c)
    ensures UnsignedLen(u + [c]) == UnsignedLen(u)
  {
    var k := DigitRun(u);
    DigitRunTrailing(u, c);
    if k < |u| {
      assert (u + [c])[k + 1..] == u[k + 1..] + [c];
      DigitRunTrailing(u[k + 1..], c);
      LenFromTrailing(u, k, DigitRun(u[k + 1..]), c);
    }
  }

  lemma NumberTrailing(s: string, c: char)
    requires s != "" && IsSpace(c)
    ensures NumberLen(s + [c]) == NumberLen(s)
  {
    if IsDigit(s[0]) {
      UnsignedTrailing(s, c);
    } else if |s| > 1 && IsDigit(s[1]) {
      assert (s + [c])[1..] == s[1..] + [c];
      UnsignedTrailing(s[1..], c);
    }
  }

  lemma OneTrailing(s: string, c: char)
    requires s != "" && IsSpace(c)
    ensures LexOne(s + [c]) == LexOne(s)
  {
    var w := s + [c];
    assert LexSymbol(w) == LexSymbol(s);
    assert |s| >= 2 ==> w[2..] == s[2..] + [c];
    assert IsTrue(w) == IsTrue(s) && IsFalse(w) == IsFalse(s);
    NumberTrailing(s, c);
    if NumberLen(s).Some? { assert w[..NumberLen(s).value] == s[..NumberLen(s).value]; }
  }

  lemma {:induction false} LexTrailing(s: string, c: char)
    requires IsSpace(c)
    ensures Lex(s + [c]) == Lex(s)
    decreases |s|
  {
    var w := s + [c];
    if s == "" {
      assert w[1..] == "";
    } else if IsSpace(s[0]) {
      assert w[1..] == s[1..] + [c];
      LexTrailing(s[1..], c);
    } else {
      OneTrailing(s, c);
      if LexOne(s).Some? {
        LexOneReadsText(s);
        var n := |Text(LexOne(s).value)|;
        assert w[n..] == s[n..] + [c];
        LexTrailing(s[n..], c);
      }
    }
  }
}
