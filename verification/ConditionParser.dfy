/** The condition evaluator: a recursive-descent parser that computes the value as it goes. Its
    language is given by trees; parsing is shown to be the inverse of printing. */
module ConditionParser {
  import opened Common
  import opened ConditionLexer

  // ---- values ----

  datatype Value = B(b: bool) | N(n: real)

  predicate Truthy(v: Value) {
    match v
    case B(b) => b
    case N(n) => n != 0.0
  }

  function Number(v: Value): real {
    match v
    case B(b) => if b then 1.0 else 0.0
    case N(n) => n
  }

  /** Strict equality does not convert; the other comparisons compare as numbers. */
  predicate CompareValues(op: RelOp, l: Value, r: Value) {
    match op
    case Eq => l == r
    case Ne => l != r
    case Gt => Number(l) > Number(r)
    case Lt => Number(l) < Number(r)
    case Ge => Number(l) >= Number(r)
    case Le => Number(l) <= Number(r)
  }

  function DigitsValue(s: string): int {
    if s == "" then 0 else DigitsValue(s[..|s| - 1]) * 10 + (s[|s| - 1] as int - '0' as int)
  }

  function Tenth(k: nat): real {
    if k == 0 then 1.0 else Tenth(k - 1) / 10.0
  }

  function WithFraction(whole: int, part: int, places: nat): real {
    whole as real + part as real * Tenth(places)
  }

  function UnsignedValue(u: string): real
    requires IsUnsigned(u)
  {
    var k := DigitRun(u);
    if k == |u| then DigitsValue(u) as real
    else WithFraction(DigitsValue(u[..k]), DigitsValue(u[k + 1..]), |u| - k - 1)
  }

  /** The exact decimal value of a number's text. */
  function NumberValue(t: string): real
    requires IsNumber(t)
  {
    if t[0] == '-' then -UnsignedValue(t[1..]) else UnsignedValue(t)
  }

  // ---- trees ----

  datatype BinOp = OrOp | AndOp | RelOf(op: RelOp)

  /** What an expression means: parentheses are gone. */
  datatype Expr = Const(b: bool) | Literal(text: string) | Bin(op: BinOp, l: Expr, r: Expr)

  ghost predicate ValidExpr(e: Expr) {
    match e
    case Const(_) => true
    case Literal(text) => IsNumber(text)
    case Bin(_, l, r) => ValidExpr(l) && ValidExpr(r)
  }

  function Eval(e: Expr): Value {
    match e
    case Const(b) => B(b)
    case Literal(text) => if IsNumber(text) then N(NumberValue(text)) else N(0.0)
    case Bin(OrOp, l, r) => B(Truthy(Eval(l)) || Truthy(Eval(r)))
    case Bin(AndOp, l, r) => B(Truthy(Eval(l)) && Truthy(Eval(r)))
    case Bin(RelOf(op), l, r) => B(CompareValues(op, Eval(l), Eval(r)))
  }

  /** What an expression looks like: the grammar the parser implements, one type per level. A comparison
      takes two primaries and cannot be chained. */
  datatype Primary = PConst(b: bool) | PNum(text: string) | Paren(inner: Disj)
  datatype Cmp = Bare(p: Primary) | Compare(op: RelOp, l: Primary, r: Primary)
  datatype Conj = OneCmp(c: Cmp) | AndMore(init: Conj, last: Cmp)
  datatype Disj = OneConj(c: Conj) | OrMore(init: Disj, last: Conj)

  function PrintPrimary(p: Primary): seq<Token> {
    match p
    case PConst(b) => [if b then True else False]
    case PNum(text) => [Num(text)]
    case Paren(d) => [LParen] + PrintDisj(d) + [RParen]
  }

  function PrintCmp(c: Cmp): seq<Token> {
    match c
    case Bare(p) => PrintPrimary(p)
    case Compare(op, l, r) => PrintPrimary(l) + [Rel(op)] + PrintPrimary(r)
  }

  function PrintConj(c: Conj): seq<Token> {
    match c
    case OneCmp(x) => PrintCmp(x)
    case AndMore(init, last) => PrintConj(init) + [And] + PrintCmp(last)
  }

  function PrintDisj(d: Disj): seq<Token> {
    match d
    case OneConj(x) => PrintConj(x)
    case OrMore(init, last) => PrintDisj(init) + [Or] + PrintConj(last)
  }

  function PrimaryExpr(p: Primary): Expr {
    match p
    case PConst(b) => Const(b)
    case PNum(text) => Literal(text)
    case Paren(d) => DisjExpr(d)
  }

  function CmpExpr(c: Cmp): Expr {
    match c
    case Bare(p) => PrimaryExpr(p)
    case Compare(op, l, r) => Bin(RelOf(op), PrimaryExpr(l), PrimaryExpr(r))
  }

  function ConjExpr(c: Conj): Expr {
    match c
    case OneCmp(x) => CmpExpr(x)
    case AndMore(init, last) => Bin(AndOp, ConjExpr(init), CmpExpr(last))
  }

  function DisjExpr(d: Disj): Expr {
    match d
    case OneConj(x) => ConjExpr(x)
    case OrMore(init, last) => Bin(OrOp, DisjExpr(init), ConjExpr(last))
  }

  // ---- parsing into trees ----

  /** Recursive descent on a token list: a tree and the tokens left over, or none. */
  function ParsePrimary(ts: seq<Token>): (r: Option<(Primary, seq<Token>)>)
    ensures r.Some? ==> |r.value.1| < |ts| && ts == PrintPrimary(r.value.0) + r.value.1
    ensures r.Some? ==> ValidExpr(PrimaryExpr(r.value.0))
    decreases |ts|, 0
  {
    if ts == [] then None
    else if ts[0] == LParen then
      var d := ParseDisj(ts[1..]);
      if d.None? || d.value.1 == [] || d.value.1[0] != RParen then None
      else Some((Paren(d.value.0), d.value.1[1..]))
    else if ts[0] == True then Some((PConst(true), ts[1..]))
    else if ts[0] == False then Some((PConst(false), ts[1..]))
    else if ts[0].Num? && IsNumber(ts[0].text) then Some((PNum(ts[0].text), ts[1..]))
    else None
  }

  function ParseCmp(ts: seq<Token>): (r: Option<(Cmp, seq<Token>)>)
    ensures r.Some? ==> |r.value.1| < |ts| && ts == PrintCmp(r.value.0) + r.value.1 && ValidExpr(CmpExpr(r.value.0))
    decreases |ts|, 1
  {
    var l := ParsePrimary(ts);
    if l.None? then None
    else
      var rest := l.value.1;
      if rest != [] && rest[0].Rel? then
        var r := ParsePrimary(rest[1..]);
        if r.None? then None else Some((Compare(rest[0].op, l.value.0, r.value.0), r.value.1))
      else Some((Bare(l.value.0), rest))
  }

  function ParseConj(ts: seq<Token>): (r: Option<(Conj, seq<Token>)>)
    ensures r.Some? ==> |r.value.1| < |ts| && ts == PrintConj(r.value.0) + r.value.1 && ValidExpr(ConjExpr(r.value.0))
    decreases |ts|, 2
  {
    var c := ParseCmp(ts);
    if c.None? then None else ConjLoop(OneCmp(c.value.0), c.value.1)
  }

  /** The loop of the && level. */
  function ConjLoop(left: Conj, ts: seq<Token>): (r: Option<(Conj, seq<Token>)>)
    ensures r.Some? ==> |r.value.1| <= |ts| && PrintConj(left) + ts == PrintConj(r.value.0) + r.value.1
    ensures r.Some? && ValidExpr(ConjExpr(left)) ==> ValidExpr(ConjExpr(r.value.0))
    decreases |ts|, 0
  {
    if ts != [] && ts[0] == And then
      var c := ParseCmp(ts[1..]);
      if c.None? then None
      else
        assert PrintConj(left) + ts == PrintConj(AndMore(left, c.value.0)) + c.value.1;
        ConjLoop(AndMore(left, c.value.0), c.value.1)
    else Some((left, ts))
  }

  function ParseDisj(ts: seq<Token>): (r: Option<(Disj, seq<Token>)>)
    ensures r.Some? ==> |r.value.1| < |ts| && ts == PrintDisj(r.value.0) + r.value.1 && ValidExpr(DisjExpr(r.value.0))
    decreases |ts|, 3
  {
    var c := ParseConj(ts);
    if c.None? then None else DisjLoop(OneConj(c.value.0), c.value.1)
  }

  /** The loop of the || level. */
  function DisjLoop(left: Disj, ts: seq<Token>): (r: Option<(Disj, seq<Token>)>)
    ensures r.Some? ==> |r.value.1| <= |ts| && PrintDisj(left) + ts == PrintDisj(r.value.0) + r.value.1
    ensures r.Some? && ValidExpr(DisjExpr(left)) ==> ValidExpr(DisjExpr(r.value.0))
    decreases |ts|, 0
  {
    if ts != [] && ts[0] == Or then
      var c := ParseConj(ts[1..]);
      if c.None? then None
      else
        assert PrintDisj(left) + ts == PrintDisj(OrMore(left, c.value.0)) + c.value.1;
        DisjLoop(OrMore(left, c.value.0), c.value.1)
    else Some((left, ts))
  }

  // ---- parsing undoes printing ----

  predicate StopsCmp(rest: seq<Token>) { rest == [] || !rest[0].Rel? }

  predicate StopsConj(rest: seq<Token>) { StopsCmp(rest) && (rest == [] || rest[0] != And) }

  lemma {:induction false} PrimaryParses(p: Primary, rest: seq<Token>)
    requires ValidExpr(PrimaryExpr(p))
    ensures ParsePrimary(PrintPrimary(p) + rest) == Some((p, rest))
    decreases p
  {
    var ts := PrintPrimary(p) + rest;
    match p
    case PConst(b) => assert ts[1..] == rest;
    case PNum(text) => assert ts[1..] == rest;
    case Paren(d) =>
      var after := [RParen] + rest;
      assert ts[1..] == PrintDisj(d) + after;
      DisjParses(d, after);
      assert DisjLoop(d, after) == Some((d, after));
      assert after[1..] == rest;
  }

  lemma {:induction false} CmpParses(c: Cmp, rest: seq<Token>)
    requires ValidExpr(CmpExpr(c)) && StopsCmp(rest)
    ensures ParseCmp(PrintCmp(c) + rest) == Some((c, rest))
    decreases c
  {
    match c
    case Bare(p) => PrimaryParses(p, rest);
    case Compare(op, l, r) =>
      var after := [Rel(op)] + (PrintPrimary(r) + rest);
      assert PrintCmp(c) + rest == PrintPrimary(l) + after;
      PrimaryParses(l, after);
      assert after[1..] == PrintPrimary(r) + rest;
      PrimaryParses(r, rest);
  }

  /** A printed conjunction brings the && loop to where it would be after reading it. */
  lemma {:induction false} ConjParses(c: Conj, rest: seq<Token>)
    requires ValidExpr(ConjExpr(c)) && StopsCmp(rest)
    ensures ParseConj(PrintConj(c) + rest) == ConjLoop(c, rest)
    decreases c
  {
    match c
    case OneCmp(x) => CmpParses(x, rest);
    case AndMore(init, last) =>
      var after := [And] + (PrintCmp(last) + rest);
      assert PrintConj(c) + rest == PrintConj(init) + after;
      ConjParses(init, after);
      assert after[1..] == PrintCmp(last) + rest;
      CmpParses(last, rest);
  }

  lemma {:induction false} DisjParses(d: Disj, rest: seq<Token>)
    requires ValidExpr(DisjExpr(d)) && StopsConj(rest)
    ensures ParseDisj(PrintDisj(d) + rest) == DisjLoop(d, rest)
    decreases d
  {
    match d
    case OneConj(x) => ConjParses(x, rest);
    case OrMore(init, last) =>
      var after := [Or] + (PrintConj(last) + rest);
      assert PrintDisj(d) + rest == PrintDisj(init) + after;
      DisjParses(init, after);
      assert after[1..] == PrintConj(last) + rest;
      ConjParses(last, rest);
  }

  /** The tree of a complete token list. */
  function Parse(ts: seq<Token>): (r: Option<Disj>)
    ensures r.Some? ==> PrintDisj(r.value) == ts && ValidExpr(DisjExpr(r.value))
  {
    var d := ParseDisj(ts);
    if d.Some? && d.value.1 == [] then Some(d.value.0) else None
  }

  /** Parsing a printed tree gives the tree back. */
  lemma ParsePrinted(d: Disj)
    requires ValidExpr(DisjExpr(d))
    ensures Parse(PrintDisj(d)) == Some(d)
  {
    assert PrintDisj(d) + [] == PrintDisj(d);
    DisjParses(d, []);
  }

  /** Exactly one tree prints as an accepted token list, and no tree prints as a rejected one. */
  lemma AcceptedIsPrintedOnce(ts: seq<Token>, d: Disj)
    requires ValidExpr(DisjExpr(d))
    ensures PrintDisj(d) == ts <==> Parse(ts) == Some(d)
  {
    if PrintDisj(d) == ts { ParsePrinted(d); }
  }

  // ---- printed trees can be laid out freely ----

  predicate Opens(t: Token) { IsOperand(t) || t == LParen }

  predicate Closes(t: Token) { IsOperand(t) || t == RParen }

  ghost predicate Shape(ts: seq<Token>) {
    ts != [] && AllNeighbours(ts) && AllValid(ts) && Opens(ts[0]) && Closes(ts[|ts| - 1])
  }

  lemma JoinShape(a: seq<Token>, op: Token, b: seq<Token>)
    requires Shape(a) && Shape(b) && IsOperator(op)
    ensures Shape(a + [op] + b)
  {
    var ts := a + [op] + b;
    forall i | 0 <= i < |ts| - 1 ensures Neighbours(ts[i], ts[i + 1]) {
      if i < |a| - 1 {
        assert Neighbours(a[i], a[i + 1]);
      } else if i > |a| {
        var j := i - |a| - 1;
        assert ts[i] == b[j] && ts[i + 1] == b[j + 1];
        assert Neighbours(b[j], b[j + 1]);
      }
    }
  }

  lemma WrapShape(a: seq<Token>)
    requires Shape(a)
    ensures Shape([LParen] + a + [RParen])
  {
    var ts := [LParen] + a + [RParen];
    forall i | 0 <= i < |ts| - 1 ensures Neighbours(ts[i], ts[i + 1]) {
      if 0 < i < |a| {
        var j := i - 1;
        assert ts[i] == a[j] && ts[i + 1] == a[j + 1];
        assert Neighbours(a[j], a[j + 1]);
      }
    }
  }

  lemma {:induction false} PrimaryShape(p: Primary)
    requires ValidExpr(PrimaryExpr(p))
    ensures Shape(PrintPrimary(p))
    decreases p
  {
    if p.Paren? {
      DisjShape(p.inner);
      WrapShape(PrintDisj(p.inner));
    }
  }

  lemma {:induction false} CmpShape(c: Cmp)
    requires ValidExpr(CmpExpr(c))
    ensures Shape(PrintCmp(c))
    decreases c
  {
    match c
    case Bare(p) => PrimaryShape(p);
    case Compare(op, l, r) =>
      PrimaryShape(l);
      PrimaryShape(r);
      JoinShape(PrintPrimary(l), Rel(op), PrintPrimary(r));
  }

  lemma {:induction false} ConjShape(c: Conj)
    requires ValidExpr(ConjExpr(c))
    ensures Shape(PrintConj(c))
    decreases c
  {
    match c
    case OneCmp(x) => CmpShape(x);
    case AndMore(init, last) =>
      ConjShape(init);
      CmpShape(last);
      JoinShape(PrintConj(init), And, PrintCmp(last));
  }

  lemma {:induction false} DisjShape(d: Disj)
    requires ValidExpr(DisjExpr(d))
    ensures Shape(PrintDisj(d))
    decreases d
  {
    match d
    case OneConj(x) => ConjShape(x);
    case OrMore(init, last) =>
      DisjShape(init);
      ConjShape(last);
      JoinShape(PrintDisj(init), Or, PrintConj(last));
  }
}
