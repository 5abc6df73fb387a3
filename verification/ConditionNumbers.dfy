/** What the operators of conditions mean, in terms of whole numbers and truth values: nothing here goes through the
    values the evaluator computes. */
module ConditionNumbers {
  import opened ConditionLexer
  import opened ConditionParser
  import opened ConditionEvaluator
  import opened ConditionMeaning

  // ---- decimal notation ----

  function Digit(d: nat): char
    requires d < 10
  {
    "0123456789"[d]
  }

  function Pow10(i: nat): (p: nat)
    ensures p >= 1
  {
    if i == 0 then 1 else 10 * Pow10(i - 1)
  }

  function Digits(n: nat): string {
    if n < 10 then [Digit(n)] else Digits(n / 10) + [Digit(n % 10)]
  }

  /** The last `i` digits of `n`, with leading zeros. */
  function LastDigits(n: nat, i: nat): string {
    if i == 0 then "" else LastDigits(n / 10, i - 1) + [Digit(n % 10)]
  }

  /** The whole part of `n / 10^i`. */
  function Whole(n: nat, i: nat): nat {
    Quotient(n, Pow10(i))
  }

  function Quotient(n: nat, p: nat): nat
    requires p >= 1
  {
    n / p
  }

  /** The number `n / 10^i`, with `i` digits after the point. */
  function Unsigned(n: nat, i: nat): string {
    if i == 0 then Digits(n) else Digits(Whole(n, i)) + ['.'] + LastDigits(n, i)
  }

  function Decimal(n: int, i: nat): string {
    if n < 0 then ['-'] + Unsigned(-n, i) else Unsigned(n, i)
  }

  // ---- the evaluator reads it back ----

  ghost predicate AllDigits(s: string) {
    forall i | 0 <= i < |s| :: IsDigit(s[i])
  }

  lemma OneDigitMore(s: string, d: nat)
    requires AllDigits(s) && d < 10
    ensures AllDigits(s + [Digit(d)]) && DigitsValue(s + [Digit(d)]) == 10 * DigitsValue(s) + d
  {
    assert (s + [Digit(d)])[..|s|] == s;
    assert Digit(d) as int == '0' as int + d by { DigitCode(d); }
  }

  lemma DigitCode(d: nat)
    requires d < 10
    ensures Digit(d) as int == '0' as int + d
  {
    assert d == 0 || d == 1 || d == 2 || d == 3 || d == 4 || d == 5 || d == 6 || d == 7 || d == 8 || d == 9;
  }

  lemma {:induction false} DigitsRead(n: nat)
    ensures Digits(n) != "" && AllDigits(Digits(n)) && DigitsValue(Digits(n)) == n
  {
    if n < 10 {
      OneDigitMore("", n);
      assert "" + [Digit(n)] == [Digit(n)];
    } else {
      DigitsRead(n / 10);
      OneDigitMore(Digits(n / 10), n % 10);
    }
  }

  lemma Divides(n: nat, p: nat, q: nat, r: nat)
    requires n == q * p + r && r < p
    ensures n / p == q && n % p == r
  {
    var d: int := n / p - q;
    assert d * p == r - n % p;
    assert (d >= 1 ==> d * p >= p) && (d <= -1 ==> d * p + p <= 0);
  }

  /** Taking one more digit off the end. */
  lemma ModTen(n: nat, i: nat)
    ensures n % Pow10(i + 1) == 10 * ((n / 10) % Pow10(i)) + n % 10
  {
    var p := Pow10(i);
    var q, r := (n / 10) / p, (n / 10) % p;
    assert n == 10 * (q * p + r) + n % 10;
    assert 10 * (q * p) == q * (10 * p);
    Divides(n, 10 * p, q, 10 * r + n % 10);
  }

  lemma {:induction false} LastDigitsRead(n: nat, i: nat)
    ensures |LastDigits(n, i)| == i && AllDigits(LastDigits(n, i))
    ensures DigitsValue(LastDigits(n, i)) == n % Pow10(i)
  {
    if i > 0 {
      LastDigitsRead(n / 10, i - 1);
      OneDigitMore(LastDigits(n / 10, i - 1), n % 10);
      ModTen(n, i - 1);
    }
  }

  lemma {:induction false} TenthIsInverse(i: nat)
    ensures IsScaled(Tenth(i), Pow10(i), 1)
  {
    if i > 0 {
      TenthIsInverse(i - 1);
      var t, p := Tenth(i - 1), Pow10(i - 1) as real;
      assert Tenth(i) * Pow10(i) as real == (t / 10.0) * (10.0 * p) == t * p;
    }
  }

  /** The value of digits with a point in between. */
  lemma PointReads(a: string, b: string)
    requires a != "" && AllDigits(a) && b != "" && AllDigits(b)
    ensures var u := a + ['.'] + b;
      IsUnsigned(u) && u[0] != '-' && UnsignedValue(u) == WithFraction(DigitsValue(a), DigitsValue(b), |b|)
  {
    var u := a + ['.'] + b;
    DigitRunIs(u, |a|);
    assert u[|a| + 1..] == b && u[..|a|] == a;
    DigitRunIs(b, |b|);
  }

  /** The number `n / 10^i`, put together from its two parts. */
  function Parts(n: nat, i: nat): real {
    WithFraction(Whole(n, i), n % Pow10(i), i)
  }

  lemma PartsScale(n: nat, i: nat)
    ensures IsScaled(Parts(n, i), Pow10(i), n)
  {
    TenthIsInverse(i);
    EuclidScaled(n, Pow10(i), Tenth(i));
  }

  lemma EuclidScaled(n: nat, p: nat, t: real)
    requires p >= 1 && IsScaled(t, p, 1)
    ensures IsScaled(Quotient(n, p) as real + (n % p) as real * t, p, n)
  {
    Euclid(n, p);
    Recombines(n, Quotient(n, p), n % p, p, t);
  }

  lemma Euclid(n: nat, p: nat)
    requires p >= 1
    ensures n == Quotient(n, p) * p + n % p
  {}

  lemma Recombines(n: nat, q: nat, r: nat, p: nat, t: real)
    requires IsScaled(t, p, 1) && n == q * p + r
    ensures IsScaled(q as real + r as real * t, p, n)
  {
    assert (q as real + r as real * t) * p as real == q as real * p as real + r as real * (t * p as real);
    assert (q * p) as real == q as real * p as real;
  }

  lemma UnsignedReads(n: nat, i: nat) returns (u: string)
    ensures u == Unsigned(n, i) && IsUnsigned(u) && u[0] != '-' && UnsignedValue(u) == Parts(n, i)
  {
    u := Unsigned(n, i);
    if i == 0 {
      DigitsRead(n);
      DigitRunIs(Digits(n), |Digits(n)|);
    } else {
      DigitsRead(Whole(n, i));
      LastDigitsRead(n, i);
      PointReads(Digits(Whole(n, i)), LastDigits(n, i));
    }
  }

  lemma MinusReads(u: string)
    requires IsUnsigned(u)
    ensures IsNumber(['-'] + u) && NumberValue(['-'] + u) == -UnsignedValue(u)
  {
    assert (['-'] + u)[1..] == u;
  }

  /** What is read from a number as written. */
  function ValueOf(n: int, i: nat): real {
    if n < 0 then -Parts(-n, i) else Parts(n, i)
  }

  lemma DecimalReads(n: int, i: nat) returns (text: string)
    ensures text == Decimal(n, i) && IsNumber(text) && NumberValue(text) == ValueOf(n, i)
  {
    var m: nat := if n < 0 then -n else n;
    var u := UnsignedReads(m, i);
    if n < 0 {
      MinusReads(u);
      text := ['-'] + u;
    } else {
      text := u;
    }
  }

  /** `a` is `n / p`. */
  predicate IsScaled(a: real, p: nat, n: int) {
    a * p as real == n as real
  }

  lemma ValueScales(n: int, i: nat)
    ensures IsScaled(ValueOf(n, i), Pow10(i), n)
  {
    if n < 0 {
      PartsScale(-n, i);
      Negated(Parts(-n, i), Pow10(i), -n);
    } else {
      PartsScale(n, i);
    }
  }

  lemma Negated(a: real, p: nat, n: int)
    requires IsScaled(a, p, n)
    ensures IsScaled(-a, p, -n)
  {}

  // ---- comparisons ----

  /** The number `n / 10^places`, or one of the words `true` and `false`. */
  datatype Operand = Fraction(n: int, places: nat) | Word(b: bool)

  function Written(x: Operand): string {
    match x
    case Fraction(n, i) => Decimal(n, i)
    case Word(b) => if b then "true" else "false"
  }

  /** An operand times the power of ten of both numbers of decimal places: a whole number. The words count as 1 and
      0. */
  function Scaled(x: Operand, y: Operand): int {
    Numerator(x) * Pow10(Places(y))
  }

  function Numerator(x: Operand): int {
    match x
    case Fraction(n, _) => n
    case Word(b) => if b then 1 else 0
  }

  function Places(x: Operand): nat {
    if x.Fraction? then x.places else 0
  }

  const SIGNS: set<string> := {"===", "!==", ">", "<", ">=", "<="}

  /** What a comparison says: an ordering of numbers, or being the same number or the same word. */
  predicate Says(x: Operand, sign: string, y: Operand)
    requires sign in SIGNS
  {
    var l, r := Scaled(x, y), Scaled(y, x);
    if sign == "===" then x.Word? == y.Word? && l == r
    else if sign == "!==" then x.Word? != y.Word? || l != r
    else if sign == ">" then l > r
    else if sign == "<" then l < r
    else if sign == ">=" then l >= r
    else l <= r
  }

  function SignOp(sign: string): (op: RelOp)
    requires sign in SIGNS
    ensures RelText(op) == sign
  {
    if sign == "===" then Eq else if sign == "!==" then Ne else if sign == ">" then Gt
    else if sign == "<" then Lt else if sign == ">=" then Ge else Le
  }

  function Literally(x: Operand): Primary {
    match x
    case Fraction(n, i) => PNum(Decimal(n, i))
    case Word(b) => PConst(b)
  }

  function Meant(x: Operand): Value {
    match x
    case Fraction(n, i) => N(ValueOf(n, i))
    case Word(b) => B(b)
  }

  lemma OperandReads(x: Operand)
    ensures ValidExpr(PrimaryExpr(Literally(x))) && Eval(PrimaryExpr(Literally(x))) == Meant(x)
    ensures PrintPrimary(Literally(x)) == [Spelt(x)] && LaidOut(Written(x), [Spelt(x)])
  {
    TokenLaidOut(Spelt(x));
    if x.Fraction? { var _ := DecimalReads(x.n, x.places); }
  }

  function Spelt(x: Operand): Token {
    match x
    case Fraction(n, i) => Num(Decimal(n, i))
    case Word(b) => if b then True else False
  }

  lemma SignReads(sign: string)
    requires sign in SIGNS
    ensures LaidOut(sign, [Rel(SignOp(sign))])
  {
    TokenLaidOut(Rel(SignOp(sign)));
  }

  lemma OperandScales(x: Operand)
    ensures IsScaled(Number(Meant(x)), Pow10(Places(x)), Numerator(x))
  {
    if x.Fraction? { ValueScales(x.n, x.places); }
  }

  /** Two numbers compare as they do when both are multiplied by what makes them whole. */
  lemma ScaledCompare(a: real, b: real, p: nat, q: nat, n: int, m: int)
    requires p >= 1 && q >= 1 && IsScaled(a, p, n) && IsScaled(b, q, m)
    ensures a < b <==> n * q < m * p
    ensures a == b <==> n * q == m * p
  {
    var c := p as real * q as real;
    assert a * c == (a * p as real) * q as real == n as real * q as real == (n * q) as real;
    assert b * c == (b * q as real) * p as real == m as real * p as real == (m * p) as real;
    Monotone(a, b, c);
  }

  lemma Monotone(a: real, b: real, c: real)
    requires c > 0.0
    ensures a < b <==> a * c < b * c
    ensures a == b <==> a * c == b * c
  {
    assert a < b ==> (b - a) * c > 0.0;
    assert a > b ==> (a - b) * c > 0.0;
  }

  lemma OperandsCompare(x: Operand, y: Operand)
    ensures Number(Meant(x)) < Number(Meant(y)) <==> Scaled(x, y) < Scaled(y, x)
    ensures Number(Meant(x)) == Number(Meant(y)) <==> Scaled(x, y) == Scaled(y, x)
  {
    OperandScales(x);
    OperandScales(y);
    ScaledCompare(Number(Meant(x)), Number(Meant(y)), Pow10(Places(x)), Pow10(Places(y)), Numerator(x), Numerator(y));
  }

  lemma ComparedRight(x: Operand, sign: string, y: Operand)
    requires sign in SIGNS
    ensures CompareValues(SignOp(sign), Meant(x), Meant(y)) <==> Says(x, sign, y)
  {
    OperandsCompare(x, y);
    SameValue(Meant(x), Meant(y));
  }

  lemma SameValue(l: Value, r: Value)
    ensures l == r <==> (l.B? <==> r.B?) && Number(l) == Number(r)
  {}

  /** A comparison, with any white space around its parts, is true if and only if it says something true. */
  lemma ComparisonIsTrue(x: Operand, sign: string, y: Operand, g0: string, g1: string, g2: string, g3: string)
    requires sign in SIGNS && IsGap(g0) && IsGap(g1) && IsGap(g2) && IsGap(g3)
    ensures ConditionValue(g0 + Written(x) + g1 + sign + g2 + Written(y) + g3) <==> Says(x, sign, y)
  {
    var text := g0 + Written(x) + g1 + sign + g2 + Written(y) + g3;
    ComparisonText(x, sign, y, g0, g1, g2, g3, text);
    ComparedRight(x, sign, y);
  }

  lemma ComparisonText(x: Operand, sign: string, y: Operand, g0: string, g1: string, g2: string, g3: string,
                       text: string)
    requires sign in SIGNS && IsGap(g0) && IsGap(g1) && IsGap(g2) && IsGap(g3)
    requires text == g0 + Written(x) + g1 + sign + g2 + Written(y) + g3
    ensures ConditionValue(text) <==> CompareValues(SignOp(sign), Meant(x), Meant(y))
  {
    OperandReads(x);
    OperandReads(y);
    SignReads(sign);
    ThreeLaidOut(Written(x), Spelt(x), sign, Rel(SignOp(sign)), Written(y), Spelt(y), g0, g1, g2, g3);
    ComparisonReads(SignOp(sign), Literally(x), Literally(y), Spelt(x), Spelt(y), text);
  }

  lemma ComparisonReads(op: RelOp, l: Primary, r: Primary, a: Token, b: Token, text: string)
    requires ValidExpr(PrimaryExpr(l)) && ValidExpr(PrimaryExpr(r)) && PrintPrimary(l) == [a] && PrintPrimary(r) == [b]
    requires LaidOut(text, [a, Rel(op), b])
    ensures ConditionValue(text) <==> CompareValues(op, Eval(PrimaryExpr(l)), Eval(PrimaryExpr(r)))
  {
    ComparisonTree(op, l, r, a, b);
    LaidOutReads(text, OneConj(OneCmp(Compare(op, l, r))));
  }

  lemma ThreeLaidOut(a: string, x: Token, b: string, y: Token, c: string, z: Token, g0: string, g1: string, g2: string,
                     g3: string)
    requires LaidOut(a, [x]) && LaidOut(b, [y]) && LaidOut(c, [z])
    requires IsGap(g0) && IsGap(g1) && IsGap(g2) && IsGap(g3)
    ensures LaidOut(g0 + a + g1 + b + g2 + c + g3, [x, y, z])
  {
    GapLaidOut(g0);
    var s1 := Extended(g0, [], a, x, g1, [x]);
    var s2 := Extended(s1, [x], b, y, g2, [x, y]);
    var _ := Extended(s2, [x, y], c, z, g3, [x, y, z]);
  }

  lemma ComparisonTree(op: RelOp, l: Primary, r: Primary, a: Token, b: Token)
    requires ValidExpr(PrimaryExpr(l)) && ValidExpr(PrimaryExpr(r)) && PrintPrimary(l) == [a] && PrintPrimary(r) == [b]
    ensures var d := OneConj(OneCmp(Compare(op, l, r)));
      PrintDisj(d) == [a, Rel(op), b] && ValidExpr(DisjExpr(d))
      && DisjExpr(d) == Bin(RelOf(op), PrimaryExpr(l), PrimaryExpr(r))
  {
    var c := Compare(op, l, r);
    assert PrintConj(OneCmp(c)) == PrintCmp(c) == [a, Rel(op), b];
    assert ConjExpr(OneCmp(c)) == CmpExpr(c);
  }

  /** A number or word by itself is true unless it is zero or `false`. */
  lemma OperandIsTrue(x: Operand, g0: string, g1: string)
    requires IsGap(g0) && IsGap(g1)
    ensures ConditionValue(g0 + Written(x) + g1) <==> Numerator(x) != 0
  {
    OperandReads(x);
    OperandTruth(x);
    var d := OneConj(Alone(Literally(x)));
    AloneIs(Literally(x));
    GapLaidOut(g0);
    var _ := Extended(g0, [], Written(x), Spelt(x), g1, [Spelt(x)]);
    LaidOutReads(g0 + Written(x) + g1, d);
  }

  lemma OperandTruth(x: Operand)
    ensures Truthy(Meant(x)) <==> Numerator(x) != 0
  {
    OperandScales(x);
    ZeroScaled(Number(Meant(x)), Pow10(Places(x)), Numerator(x));
  }

  lemma ZeroScaled(a: real, p: nat, n: int)
    requires p >= 1 && IsScaled(a, p, n)
    ensures a == 0.0 <==> n == 0
  {}

  // ---- connectives ----

  /** Some white space makes `s` of the tokens. */
  ghost predicate LaidOut(s: string, ts: seq<Token>) {
    exists gaps :: IsLaidOut(s, ts, gaps)
  }

  ghost predicate IsLaidOut(s: string, ts: seq<Token>, gaps: seq<string>) {
    |gaps| == |ts| + 1 && AreGaps(gaps) && s == Layout(ts, gaps)
  }

  lemma TokenLaidOut(t: Token)
    ensures LaidOut(Text(t), [t])
  {
    assert IsLaidOut(Text(t), [t], ["", ""]);
  }

  lemma GapLaidOut(gap: string)
    requires IsGap(gap)
    ensures LaidOut(gap, [])
  {
    assert IsLaidOut(gap, [], [gap]);
  }

  /** One more token, and white space after it. */
  lemma Extended(s: string, ts: seq<Token>, text: string, t: Token, gap: string, more: seq<Token>) returns (r: string)
    requires LaidOut(s, ts) && LaidOut(text, [t]) && IsGap(gap) && more == ts + [t]
    ensures r == s + text + gap && LaidOut(r, more)
  {
    r := s + text + gap;
    GapLaidOut(gap);
    LaidOutBoth(s, ts, text, [t]);
    LaidOutBoth(s + text, more, gap, []);
    assert more + [] == more;
  }

  /** White space before the first token. */
  lemma GapBefore(gap: string, ts: seq<Token>, gaps: seq<string>)
    requires |gaps| == |ts| + 1 && AreGaps(gaps) && IsGap(gap)
    ensures LaidOut(gap + Layout(ts, gaps), ts)
  {
    var more := [gap + gaps[0]] + gaps[1..];
    assert IsGap(gaps[0]);
    WiderFirstGap(gap, ts, gaps, more);
    assert IsLaidOut(gap + Layout(ts, gaps), ts, more);
  }

  lemma WiderFirstGap(gap: string, ts: seq<Token>, gaps: seq<string>, more: seq<string>)
    requires |gaps| == |more| == |ts| + 1 && more[0] == gap + gaps[0] && more[1..] == gaps[1..]
    ensures Layout(ts, more) == gap + Layout(ts, gaps)
  {
    if ts != [] {
      Regrouped(gap, gaps[0], Text(ts[0]), Layout(ts[1..], gaps[1..]));
    }
  }

  lemma Regrouped(a: string, b: string, c: string, d: string)
    ensures a + b + c + d == a + (b + c + d)
  {}

  lemma {:induction false} LaidOutJoin(s: string, a: seq<Token>, gaps: seq<string>, t: string, b: seq<Token>)
    requires IsLaidOut(s, a, gaps) && LaidOut(t, b)
    ensures LaidOut(s + t, a + b)
    decreases |a|
  {
    if a == [] {
      var more :| IsLaidOut(t, b, more);
      GapBefore(gaps[0], b, more);
      assert a + b == b;
    } else {
      var rest := Layout(a[1..], gaps[1..]);
      assert IsLaidOut(rest, a[1..], gaps[1..]);
      LaidOutJoin(rest, a[1..], gaps[1..], t, b);
      var more :| IsLaidOut(rest + t, a[1..] + b, more);
      OneTokenFirst(gaps[0], a[0], a[1..] + b, more, rest + t);
      assert [a[0]] + (a[1..] + b) == a + b;
      assert s + t == gaps[0] + Text(a[0]) + (rest + t);
    }
  }

  lemma OneTokenFirst(gap: string, t: Token, ts: seq<Token>, gaps: seq<string>, s: string)
    requires IsGap(gap) && IsLaidOut(s, ts, gaps)
    ensures LaidOut(gap + Text(t) + s, [t] + ts)
  {
    assert ([t] + ts)[1..] == ts && ([gap] + gaps)[1..] == gaps;
    assert IsLaidOut(gap + Text(t) + s, [t] + ts, [gap] + gaps);
  }

  lemma LaidOutBoth(s: string, a: seq<Token>, t: string, b: seq<Token>)
    requires LaidOut(s, a) && LaidOut(t, b)
    ensures LaidOut(s + t, a + b)
  {
    var gaps :| IsLaidOut(s, a, gaps);
    LaidOutJoin(s, a, gaps, t, b);
  }

  lemma LaidOutReads(s: string, d: Disj)
    requires LaidOut(s, PrintDisj(d)) && ValidExpr(DisjExpr(d))
    ensures ConditionValue(s) == Truthy(Eval(DisjExpr(d)))
  {
    var gaps :| IsLaidOut(s, PrintDisj(d), gaps);
    WrittenIsRead(s, d, gaps);
  }

  /** The string is an expression. */
  ghost predicate Accepted(s: string) {
    exists d, gaps :: Writes(s, d, gaps)
  }

  function Parens(s: string): string {
    "(" + s + ")"
  }

  /** An accepted string in parentheses is a primary with the same truth. */
  lemma InParens(s: string) returns (p: Primary)
    requires Accepted(s)
    ensures ValidExpr(PrimaryExpr(p)) && LaidOut(Parens(s), PrintPrimary(p))
    ensures Truthy(Eval(PrimaryExpr(p))) == ConditionValue(s)
  {
    var d, gaps :| Writes(s, d, gaps);
    p := Paren(d);
    WrittenIsRead(s, d, gaps);
    assert IsLaidOut(s, PrintDisj(d), gaps);
    TokenLaidOut(LParen);
    TokenLaidOut(RParen);
    LaidOutBoth("(", [LParen], s, PrintDisj(d));
    LaidOutBoth("(" + s, [LParen] + PrintDisj(d), ")", [RParen]);
  }

  lemma OperatorBetween(s: string, a: seq<Token>, op: Token, t: string, b: seq<Token>)
    requires LaidOut(s, a) && LaidOut(t, b)
    ensures LaidOut(s + Text(op) + t, a + [op] + b)
  {
    TokenLaidOut(op);
    LaidOutBoth(s, a, Text(op), [op]);
    LaidOutBoth(s + Text(op), a + [op], t, b);
  }

  /** The tree of two or three primaries joined by connectives. */
  function Alone(p: Primary): Conj {
    OneCmp(Bare(p))
  }

  lemma AloneIs(p: Primary)
    ensures PrintConj(Alone(p)) == PrintPrimary(p) && ConjExpr(Alone(p)) == PrimaryExpr(p)
    ensures PrintDisj(OneConj(Alone(p))) == PrintPrimary(p) && DisjExpr(OneConj(Alone(p))) == PrimaryExpr(p)
  {
    assert PrintConj(Alone(p)) == PrintCmp(Bare(p)) && ConjExpr(Alone(p)) == CmpExpr(Bare(p));
  }

  /** `&&` is true if and only if both sides are, `||` if and only if one is, and parentheses change nothing. */
  lemma ConnectivesMean(s: string, t: string)
    requires Accepted(s) && Accepted(t)
    ensures ConditionValue(Parens(s)) <==> ConditionValue(s)
    ensures ConditionValue(Parens(s) + "&&" + Parens(t)) <==> ConditionValue(s) && ConditionValue(t)
    ensures ConditionValue(Parens(s) + "||" + Parens(t)) <==> ConditionValue(s) || ConditionValue(t)
  {
    var p := InParens(s);
    var q := InParens(t);
    AloneIs(p);
    AloneIs(q);
    LaidOutReads(Parens(s), OneConj(Alone(p)));
    OperatorBetween(Parens(s), PrintPrimary(p), And, Parens(t), PrintPrimary(q));
    AndReads(Parens(s) + "&&" + Parens(t), p, q);
    OperatorBetween(Parens(s), PrintPrimary(p), Or, Parens(t), PrintPrimary(q));
    OrReads(Parens(s) + "||" + Parens(t), p, q);
  }

  lemma AndReads(w: string, p: Primary, q: Primary)
    requires ValidExpr(PrimaryExpr(p)) && ValidExpr(PrimaryExpr(q))
    requires LaidOut(w, PrintPrimary(p) + [And] + PrintPrimary(q))
    ensures ConditionValue(w) <==> Truthy(Eval(PrimaryExpr(p))) && Truthy(Eval(PrimaryExpr(q)))
  {
    AloneIs(p);
    var c := AndMore(Alone(p), Bare(q));
    assert PrintConj(c) == PrintPrimary(p) + [And] + PrintPrimary(q);
    assert ConjExpr(c) == Bin(AndOp, PrimaryExpr(p), PrimaryExpr(q));
    assert PrintDisj(OneConj(c)) == PrintConj(c) && DisjExpr(OneConj(c)) == ConjExpr(c);
    LaidOutReads(w, OneConj(c));
  }

  lemma OrReads(w: string, p: Primary, q: Primary)
    requires ValidExpr(PrimaryExpr(p)) && ValidExpr(PrimaryExpr(q))
    requires LaidOut(w, PrintPrimary(p) + [Or] + PrintPrimary(q))
    ensures ConditionValue(w) <==> Truthy(Eval(PrimaryExpr(p))) || Truthy(Eval(PrimaryExpr(q)))
  {
    AloneIs(p);
    AloneIs(q);
    LaidOutReads(w, OrMore(OneConj(Alone(p)), Alone(q)));
  }

  /** `&&` binds more tightly than `||`, on either side. */
  lemma AndBindsTighter(s: string, t: string, u: string)
    requires Accepted(s) && Accepted(t) && Accepted(u)
    ensures ConditionValue(Parens(s) + "||" + (Parens(t) + "&&" + Parens(u)))
       <==> ConditionValue(s) || (ConditionValue(t) && ConditionValue(u))
    ensures ConditionValue(Parens(t) + "&&" + Parens(u) + "||" + Parens(s))
       <==> (ConditionValue(t) && ConditionValue(u)) || ConditionValue(s)
  {
    var p := InParens(s);
    var q := InParens(t);
    var r := InParens(u);
    var both := PrintPrimary(q) + [And] + PrintPrimary(r);
    OperatorBetween(Parens(t), PrintPrimary(q), And, Parens(u), PrintPrimary(r));
    OperatorBetween(Parens(s), PrintPrimary(p), Or, Parens(t) + "&&" + Parens(u), both);
    OperatorBetween(Parens(t) + "&&" + Parens(u), both, Or, Parens(s), PrintPrimary(p));
    MixedReads(Parens(s) + "||" + (Parens(t) + "&&" + Parens(u)), Parens(t) + "&&" + Parens(u) + "||" + Parens(s),
               p, q, r);
  }

  lemma MixedReads(w: string, v: string, p: Primary, q: Primary, r: Primary)
    requires ValidExpr(PrimaryExpr(p)) && ValidExpr(PrimaryExpr(q)) && ValidExpr(PrimaryExpr(r))
    requires LaidOut(w, PrintPrimary(p) + [Or] + (PrintPrimary(q) + [And] + PrintPrimary(r)))
    requires LaidOut(v, PrintPrimary(q) + [And] + PrintPrimary(r) + [Or] + PrintPrimary(p))
    ensures ConditionValue(w)
       <==> Truthy(Eval(PrimaryExpr(p))) || (Truthy(Eval(PrimaryExpr(q))) && Truthy(Eval(PrimaryExpr(r))))
    ensures ConditionValue(v) == ConditionValue(w)
  {
    AloneIs(p);
    AloneIs(q);
    var c := AndMore(Alone(q), Bare(r));
    assert PrintConj(c) == PrintPrimary(q) + [And] + PrintPrimary(r);
    assert ConjExpr(c) == Bin(AndOp, PrimaryExpr(q), PrimaryExpr(r));
    assert PrintDisj(OneConj(c)) == PrintConj(c) && DisjExpr(OneConj(c)) == ConjExpr(c);
    LaidOutReads(w, OrMore(OneConj(Alone(p)), c));
    LaidOutReads(v, OrMore(OneConj(c), Alone(p)));
  }
}
