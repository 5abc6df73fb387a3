/** The grammar comment in the program allows chains of comparisons; the program reads one comparison at most. No
    expression holds two comparisons side by side, wherever they stand and whatever is compared. */
module ConditionChains {
  import opened Common
  import opened ConditionLexer
  import opened ConditionParser
  import opened ConditionEvaluator

  /** A comparison sign, a primary, and another comparison sign. */
  predicate Chained(ts: seq<Token>) {
    && ts != [] && ts[0].Rel? && ParsePrimary(ts[1..]).Some?
    && var rest := ParsePrimary(ts[1..]).value.1; rest != [] && rest[0].Rel?
  }

  /** No such thing begins among the first `n` tokens. */
  ghost predicate NoChainIn(ts: seq<Token>, n: nat)
    requires n <= |ts|
  {
    forall i | 0 <= i < n :: !Chained(ts[i..])
  }

  lemma NoChainBoth(a: seq<Token>, b: seq<Token>, n: nat)
    requires n <= |b| && NoChainIn(a + b, |a|) && NoChainIn(b, n)
    ensures NoChainIn(a + b, |a| + n)
  {
    forall i | 0 <= i < |a| + n ensures !Chained((a + b)[i..]) {
      if i >= |a| { assert (a + b)[i..] == b[i - |a|..]; }
    }
  }

  lemma NoChainToken(t: Token, b: seq<Token>, n: nat)
    requires n <= |b| && !t.Rel? && NoChainIn(b, n)
    ensures NoChainIn([t] + b, 1 + n)
  {
    assert ([t] + b)[0..] == [t] + b;
    NoChainBoth([t], b, n);
  }

  lemma {:induction false} PrimaryHasNoChain(p: Primary, rest: seq<Token>)
    requires ValidExpr(PrimaryExpr(p))
    ensures NoChainIn(PrintPrimary(p) + rest, |PrintPrimary(p)|)
    decreases p
  {
    var ts := PrintPrimary(p) + rest;
    if p.Paren? {
      var inner := PrintDisj(p.inner);
      DisjHasNoChain(p.inner, [RParen] + rest);
      NoChainToken(RParen, rest, 0);
      NoChainBoth(inner, [RParen] + rest, 1);
      NoChainToken(LParen, inner + ([RParen] + rest), |inner| + 1);
      assert ts == [LParen] + (inner + ([RParen] + rest));
    } else {
      assert ts[0..] == ts;
    }
  }

  lemma {:induction false} CmpHasNoChain(c: Cmp, rest: seq<Token>)
    requires ValidExpr(CmpExpr(c)) && StopsCmp(rest)
    ensures NoChainIn(PrintCmp(c) + rest, |PrintCmp(c)|)
    decreases c
  {
    match c
    case Bare(p) => PrimaryHasNoChain(p, rest);
    case Compare(op, l, r) =>
      var both := [Rel(op)] + (PrintPrimary(r) + rest);
      PrimaryHasNoChain(l, both);
      PrimaryHasNoChain(r, rest);
      RightHasNoChain(op, r, rest);
      NoChainBoth(PrintPrimary(l), both, 1 + |PrintPrimary(r)|);
      assert PrintCmp(c) + rest == PrintPrimary(l) + both;
  }

  lemma RightHasNoChain(op: RelOp, r: Primary, rest: seq<Token>)
    requires ValidExpr(PrimaryExpr(r)) && StopsCmp(rest) && NoChainIn(PrintPrimary(r) + rest, |PrintPrimary(r)|)
    ensures NoChainIn([Rel(op)] + (PrintPrimary(r) + rest), 1 + |PrintPrimary(r)|)
  {
    var right := PrintPrimary(r) + rest;
    var both := [Rel(op)] + right;
    PrimaryParses(r, rest);
    assert both[1..] == right && both[0..] == both;
    NoChainBoth([Rel(op)], right, |PrintPrimary(r)|);
  }

  lemma {:induction false} ConjHasNoChain(c: Conj, rest: seq<Token>)
    requires ValidExpr(ConjExpr(c)) && StopsCmp(rest)
    ensures NoChainIn(PrintConj(c) + rest, |PrintConj(c)|)
    decreases c
  {
    match c
    case OneCmp(x) => CmpHasNoChain(x, rest);
    case AndMore(init, last) =>
      var more := PrintCmp(last) + rest;
      CmpHasNoChain(last, rest);
      NoChainToken(And, more, |PrintCmp(last)|);
      ConjHasNoChain(init, [And] + more);
      NoChainBoth(PrintConj(init), [And] + more, 1 + |PrintCmp(last)|);
      assert PrintConj(c) + rest == PrintConj(init) + ([And] + more);
  }

  lemma {:induction false} DisjHasNoChain(d: Disj, rest: seq<Token>)
    requires ValidExpr(DisjExpr(d)) && StopsCmp(rest)
    ensures NoChainIn(PrintDisj(d) + rest, |PrintDisj(d)|)
    decreases d
  {
    match d
    case OneConj(x) => ConjHasNoChain(x, rest);
    case OrMore(init, last) =>
      var more := PrintConj(last) + rest;
      ConjHasNoChain(last, rest);
      NoChainToken(Or, more, |PrintConj(last)|);
      DisjHasNoChain(init, [Or] + more);
      NoChainBoth(PrintDisj(init), [Or] + more, 1 + |PrintConj(last)|);
      assert PrintDisj(d) + rest == PrintDisj(init) + ([Or] + more);
  }

  lemma ChainIsChained(a: seq<Token>, op1: RelOp, p: Primary, op2: RelOp, b: seq<Token>)
    requires ValidExpr(PrimaryExpr(p))
    ensures var ts := a + [Rel(op1)] + PrintPrimary(p) + [Rel(op2)] + b; |a| < |ts| && Chained(ts[|a|..])
  {
    var ts := a + [Rel(op1)] + PrintPrimary(p) + [Rel(op2)] + b;
    var rest := [Rel(op2)] + b;
    assert ts[|a|..] == [Rel(op1)] + (PrintPrimary(p) + rest);
    assert ts[|a|..][1..] == PrintPrimary(p) + rest;
    PrimaryParses(p, rest);
  }

  /** Whatever stands before, between and after, two comparison signs around one primary are not accepted. */
  lemma ChainIsNotAccepted(a: seq<Token>, op1: RelOp, p: Primary, op2: RelOp, b: seq<Token>)
    requires ValidExpr(PrimaryExpr(p))
    ensures Parse(a + [Rel(op1)] + PrintPrimary(p) + [Rel(op2)] + b) == None
  {
    var ts := a + [Rel(op1)] + PrintPrimary(p) + [Rel(op2)] + b;
    if Parse(ts).Some? {
      var d := Parse(ts).value;
      ChainIsChained(a, op1, p, op2, b);
      AcceptedIsPrinted(ts);
      DisjHasNoChain(d, []);
    }
  }

  lemma AcceptedIsPrinted(ts: seq<Token>)
    requires Parse(ts).Some?
    ensures ValidExpr(DisjExpr(Parse(ts).value)) && PrintDisj(Parse(ts).value) + [] == PrintDisj(Parse(ts).value) == ts
  {}

  /** A condition with such a chain anywhere in it is false. */
  lemma ChainedComparisonIsFalse(s: string, a: seq<Token>, op1: RelOp, p: Primary, op2: RelOp, b: seq<Token>)
    requires ValidExpr(PrimaryExpr(p)) && Lex(s) == Some(a + [Rel(op1)] + PrintPrimary(p) + [Rel(op2)] + b)
    ensures !ConditionValue(s)
  {
    ChainIsNotAccepted(a, op1, p, op2, b);
  }
}
