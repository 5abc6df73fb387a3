/** The tokenizer of condition expressions: what strings it accepts, and that layout does not matter. */
module ConditionLexer {
  import opened Common
  import opened Whitespace

  datatype RelOp = Eq | Ne | Gt | Lt | Ge | Le

  /** A token. A number keeps its text. */
  datatype Token = Num(text: string) | True | False | LParen | RParen | And | Or | Rel(op: RelOp)

  function RelText(op: RelOp): string {
    match op
    case Eq => "===" case Ne => "!==" case Gt => ">" case Lt => "<" case Ge => ">=" case Le => "<="
  }

  function Text(t: Token): string {
    match t
    case Num(text) => text
    case True => "true" case False => "false"
    case LParen => "(" case RParen => ")"
    case And => "&&" case Or => "||"
    case Rel(op) => RelText(op)
  }

  // ---- characters ----

  predicate IsDigit(c: char) { '0' <= c <= '9' }

  predicate IsWord(c: char) {
    IsDigit(c) || 'a' <= c <= 'z' || 'A' <= c <= 'Z' || c == '_'
  }

  predicate StartsWith(s: string, p: string) {
    |p| <= |s| && s[..|p|] == p
  }

  // ---- numbers ----

  /** The length of the run of digits a string starts with. */
  function DigitRun(s: string): (k: nat)
    ensures k <= |s|
  {
    if s == "" || !IsDigit(s[0]) then 0 else 1 + DigitRun(s[1..])
  }

  ghost predicate IsDigitRun(s: string, k: nat) {
    k <= |s| && (forall i | 0 <= i < k :: IsDigit(s[i])) && (k < |s| ==> !IsDigit(s[k]))
  }

  /** The run is the longest one. */
  lemma {:induction false} DigitRunHolds(s: string)
    ensures IsDigitRun(s, DigitRun(s))
  {
    if s != "" && IsDigit(s[0]) {
      DigitRunHolds(s[1..]);
      assert forall i | 1 <= i < |s| :: s[i] == s[1..][i - 1];
    }
  }

  lemma DigitRunIs(s: string, k: nat)
    requires IsDigitRun(s, k)
    ensures DigitRun(s) == k
  {
    DigitRunHolds(s);
    var r := DigitRun(s);
    assert r < |s| ==> !IsDigit(s[r]);
  }

  /** Digits, optionally followed by a point and more digits. */
  predicate IsUnsigned(u: string) {
    var k := DigitRun(u);
    k >= 1 && (k == |u| || (u[k] == '.' && k + 1 < |u| && DigitRun(u[k + 1..]) == |u| - k - 1))
  }

  /** An unsigned number, optionally after a minus sign. */
  predicate IsNumber(t: string) {
    t != "" && IsUnsigned(if t[0] == '-' then t[1..] else t)
  }

  /** The scanner's result from the lengths of the two runs of digits it meets: none on a second point. */
  function LenFrom(u: string, k: nat, m: nat): Option<nat>
    requires k <= |u|
  {
    if k + 1 < |u| && u[k] == '.' && IsDigit(u[k + 1]) then
      (if k + 1 + m < |u| && u[k + 1 + m] == '.' then None else Some(k + 1 + m))
    else Some(k)
  }

  /** How much of `u`, which starts with a digit, the number scanner takes. */
  function UnsignedLen(u: string): (r: Option<nat>)
    ensures r.Some? ==> r.value <= |u|
  {
    var k := DigitRun(u);
    LenFrom(u, k, if k < |u| then DigitRun(u[k + 1..]) else 0)
  }

  /** What the number scanner takes from a string that starts a number. */
  function NumberLen(s: string): (r: Option<nat>)
    ensures r.Some? ==> r.value <= |s|
  {
    if s != "" && IsDigit(s[0]) then UnsignedLen(s)
    else if |s| > 1 && s[0] == '-' && IsDigit(s[1]) then
      var r := UnsignedLen(s[1..]);
      if r.Some? then Some(r.value + 1) else None
    else None
  }

  // ---- one token ----

  predicate At2(s: string, a: char, b: char) {
    |s| >= 2 && s[0] == a && s[1] == b
  }

  predicate At3(s: string, a: char, b: char, c: char) {
    |s| >= 3 && s[0] == a && s[1] == b && s[2] == c
  }

  /** Operators and parentheses, tried in the order of the program. */
  function LexSymbol(s: string): Option<Token>
    requires s != ""
  {
    if At3(s, '=', '=', '=') then Some(Rel(Eq))
    else if At3(s, '!', '=', '=') then Some(Rel(Ne))
    else if At2(s, '>', '=') then Some(Rel(Ge))
    else if At2(s, '<', '=') then Some(Rel(Le))
    else if At2(s, '&', '&') then Some(And)
    else if At2(s, '|', '|') then Some(Or)
    else if s[0] == '>' then Some(Rel(Gt))
    else if s[0] == '<' then Some(Rel(Lt))
    else if s[0] == '(' then Some(LParen)
    else if s[0] == ')' then Some(RParen)
    else None
  }

  /** "true" or "false", unless it is the beginning of a longer word. */
  predicate IsTrue(s: string) {
    At2(s, 't', 'r') && At2(s[2..], 'u', 'e') && (|s| == 4 || !IsWord(s[4]))
  }

  predicate IsFalse(s: string) {
    At2(s, 'f', 'a') && At3(s[2..], 'l', 's', 'e') && (|s| == 5 || !IsWord(s[5]))
  }

  /** The token at the start of a non-empty string. */
  function LexOne(s: string): (r: Option<Token>)
    requires s != ""
  {
    var symbol := LexSymbol(s);
    if symbol.Some? then symbol
    else if IsTrue(s) then Some(True)
    else if IsFalse(s) then Some(False)
    else
      var n := NumberLen(s);
      if n.Some? then Some(Num(s[..n.value])) else None
  }

  ghost predicate ValidToken(t: Token) {
    t.Num? ==> IsNumber(t.text)
  }

  lemma SymbolReadsText(s: string)
    requires s != "" && LexSymbol(s).Some?
    ensures var t := LexSymbol(s).value; Text(t) != "" && StartsWith(s, Text(t)) && !IsSpace(s[0]) && !t.Num?
  {}

  lemma WordReadsText(s: string)
    ensures IsTrue(s) ==> StartsWith(s, "true") && !IsSpace(s[0])
    ensures IsFalse(s) ==> StartsWith(s, "false") && !IsSpace(s[0])
  {}

  /** What is read is what stands there. */
  lemma LexOneReadsText(s: string)
    requires s != "" && LexOne(s).Some?
    ensures var t := LexOne(s).value;
      ValidToken(t) && Text(t) != "" && StartsWith(s, Text(t)) && !IsSpace(s[0])
  {
    if LexSymbol(s).Some? {
      SymbolReadsText(s);
    } else if IsTrue(s) || IsFalse(s) {
      WordReadsText(s);
    } else {
      NumberLenIsNumber(s);
    }
  }

  lemma UnsignedLenShape(u: string)
    requires u != "" && IsDigit(u[0]) && UnsignedLen(u).Some?
    ensures var n := UnsignedLen(u).value; n >= 1 && IsUnsigned(u[..n])
  {
    var k, n := DigitRun(u), UnsignedLen(u).value;
    DigitRunHolds(u);
    DigitRunIs(u[..n], k);
    if n > k {
      var f := u[k + 1..];
      DigitRunHolds(f);
      TailOfPrefix(u, k + 1, n);
      DigitRunIs(f[..n - k - 1], n - k - 1);
    }
  }

  lemma TailOfPrefix(s: string, from: nat, to: nat)
    requires from <= to <= |s|
    ensures s[..to][from..] == s[from..][..to - from]
  {}

  lemma NumberLenIsNumber(s: string)
    requires s != "" && NumberLen(s).Some?
    ensures var n := NumberLen(s).value; n >= 1 && IsNumber(s[..n]) && (IsDigit(s[0]) || s[0] == '-')
  {
    if IsDigit(s[0]) {
      UnsignedLenShape(s);
    } else {
      var u := s[1..];
      UnsignedLenShape(u);
      var n := UnsignedLen(u).value;
      TailOfPrefix(s, 1, n + 1);
    }
  }

  // ---- the whole string ----

  function Lex(s: string): Option<seq<Token>>
    decreases |s|
  {
    if s == "" then Some([])
    else if IsSpace(s[0]) then Lex(s[1..])
    else
      var t := LexOne(s);
      if t.None? then None
      else
        LexOneReadsText(s);
        var rest := Lex(s[|Text(t.value)|..]);
        if rest.Some? then Some([t.value] + rest.value) else None
  }

  // ---- layout ----

  predicate IsGap(gap: string) {
    forall i | 0 <= i < |gap| :: IsSpace(gap[i])
  }

  ghost predicate AreGaps(gaps: seq<string>) {
    forall k | 0 <= k < |gaps| :: IsGap(gaps[k])
  }

  /** The tokens written out with the given white space before, between and after them. */
  function Layout(ts: seq<Token>, gaps: seq<string>): string
    requires |gaps| == |ts| + 1
  {
    if ts == [] then gaps[0] else gaps[0] + Text(ts[0]) + Layout(ts[1..], gaps[1..])
  }

  /** A character that may stand right after a token without changing how the token is read. */
  predicate MayFollow(t: Token, c: char) {
    match t
    case Num(_) => !IsDigit(c) && c != '.'
    case True => !IsWord(c)
    case False => !IsWord(c)
    case Rel(op) => op == Gt || op == Lt ==> c != '='
    case _ => true
  }

  predicate Follows(t: Token, rest: string) {
    rest == "" || MayFollow(t, rest[0])
  }

  lemma DigitsThen(d: string, rest: string)
    requires rest == "" || !IsDigit(rest[0])
    requires DigitRun(d) == |d|
    ensures DigitRun(d + rest) == |d|
  {
    DigitRunHolds(d);
    DigitRunIs(d + rest, |d|);
  }

  lemma UnsignedReads(u: string, rest: string)
    requires IsUnsigned(u) && Follows(Num(u), rest)
    ensures u != "" && IsDigit(u[0]) && UnsignedLen(u + rest) == Some(|u|)
  {
    var k := DigitRun(u);
    DigitRunHolds(u);
    if k == |u| {
      WholeReads(u, rest);
    } else {
      DigitRunHolds(u[k + 1..]);
      FractionReads(u, rest, k, u + rest);
    }
  }

  lemma WholeReads(u: string, rest: string)
    requires IsUnsigned(u) && DigitRun(u) == |u| && Follows(Num(u), rest)
    ensures UnsignedLen(u + rest) == Some(|u|)
  {
    DigitsThen(u, rest);
    var w := u + rest;
    assert |u| < |w| ==> w[|u|] == rest[0];
  }

  lemma FractionReads(u: string, rest: string, k: nat, w: string)
    requires k + 1 < |u| && u[k] == '.' && IsDigitRun(u, k) && IsDigitRun(u[k + 1..], |u| - k - 1)
    requires Follows(Num(u), rest) && w == u + rest
    ensures UnsignedLen(w) == Some(|u|)
  {
    assert u[k + 1..][0] == u[k + 1];
    FractionRuns(u, rest, k, w);
    FractionLen(u, rest, k);
    UnsignedLenIs(w, k, |u| - k - 1);
  }

  lemma FractionRuns(u: string, rest: string, k: nat, w: string)
    requires k + 1 < |u| && IsDigitRun(u, k) && IsDigitRun(u[k + 1..], |u| - k - 1)
    requires Follows(Num(u), rest) && w == u + rest
    ensures IsDigitRun(w, k) && IsDigitRun(w[k + 1..], |u| - k - 1)
  {
    TailOfSum(u, rest, k + 1);
    var f := u[k + 1..];
    assert forall i | 0 <= i < |f| :: (f + rest)[i] == f[i];
  }

  lemma FractionLen(u: string, rest: string, k: nat)
    requires k + 1 < |u| && u[k] == '.' && IsDigit(u[k + 1]) && Follows(Num(u), rest)
    ensures LenFrom(u + rest, k, |u| - k - 1) == Some(|u|)
  {
    var w := u + rest;
    assert w[k] == u[k] && w[k + 1] == u[k + 1];
    assert |u| < |w| ==> w[|u|] == rest[0];
  }

  lemma UnsignedLenIs(w: string, k: nat, m: nat)
    requires k < |w| && IsDigitRun(w, k) && IsDigitRun(w[k + 1..], m)
    ensures UnsignedLen(w) == LenFrom(w, k, m)
  {
    DigitRunIs(w, k);
    DigitRunIs(w[k + 1..], m);
  }

  lemma TailOfSum(u: string, rest: string, k: nat)
    requires k <= |u|
    ensures (u + rest)[k..] == u[k..] + rest
  {}

  lemma NumberReads(t: string, rest: string)
    requires IsNumber(t) && Follows(Num(t), rest)
    ensures t != "" && (IsDigit(t[0]) || t[0] == '-') && NumberLen(t + rest) == Some(|t|)
  {
    if t[0] == '-' {
      var u := t[1..];
      UnsignedReads(u, rest);
      assert (t + rest)[1..] == u + rest;
    } else {
      UnsignedReads(t, rest);
    }
  }

  lemma SymbolReads(t: Token, rest: string)
    requires !t.Num? && t != True && t != False && Follows(t, rest)
    ensures LexSymbol(Text(t) + rest) == Some(t)
  {
    var s := Text(t) + rest;
    match t
    case LParen => case RParen => case And => case Or =>
    case Rel(op) =>
      match op
      case Eq => case Ne => case Ge => case Le =>
      case Gt => assert |s| >= 2 ==> s[1] == rest[0];
      case Lt => assert |s| >= 2 ==> s[1] == rest[0];
  }

  lemma WordReads(t: Token, rest: string)
    requires (t == True || t == False) && Follows(t, rest)
    ensures LexOne(Text(t) + rest) == Some(t)
  {
    var s := Text(t) + rest;
    if t == True {
      assert s[0] == 't' && s[1] == 'r' && s[2..][0] == 'u' && s[2..][1] == 'e';
      assert |s| > 4 ==> s[4] == rest[0];
    } else {
      assert s[0] == 'f' && s[1] == 'a' && s[2..][0] == 'l' && s[2..][1] == 's' && s[2..][2] == 'e';
      assert |s| > 5 ==> s[5] == rest[0];
    }
  }

  lemma NumTokenReads(t: string, rest: string)
    requires IsNumber(t) && Follows(Num(t), rest)
    ensures t != "" && !IsSpace(t[0]) && LexOne(t + rest) == Some(Num(t))
  {
    NumberReads(t, rest);
    var s := t + rest;
    assert s[0] == t[0] && s[..|t|] == t;
  }

  /** A token is read back from its own text, whatever permitted text follows. */
  lemma TokenReads(t: Token, rest: string)
    requires ValidToken(t) && Follows(t, rest)
    ensures Text(t) != "" && !IsSpace(Text(t)[0]) && LexOne(Text(t) + rest) == Some(t)
  {
    if t.Num? {
      NumTokenReads(t.text, rest);
    } else if t == True || t == False {
      WordReads(t, rest);
    } else {
      SymbolReads(t, rest);
    }
  }

  lemma {:induction false} SkipGap(gap: string, s: string)
    requires IsGap(gap)
    ensures Lex(gap + s) == Lex(s)
  {
    if gap == "" {
      assert gap + s == s;
    } else {
      assert (gap + s)[1..] == gap[1..] + s;
      SkipGap(gap[1..], s);
    }
  }

  predicate IsOperand(t: Token) { t.Num? || t == True || t == False }

  predicate IsOperator(t: Token) { t == And || t == Or || t.Rel? }

  /** Two tokens that can be neighbours in an expression. */
  predicate Neighbours(a: Token, b: Token) {
    || ((IsOperand(a) || a == RParen) && (IsOperator(b) || b == RParen))
    || ((IsOperator(a) || a == LParen) && (IsOperand(b) || b == LParen))
  }

  ghost predicate AllNeighbours(ts: seq<Token>) {
    forall i | 0 <= i < |ts| - 1 :: Neighbours(ts[i], ts[i + 1])
  }

  ghost predicate AllValid(ts: seq<Token>) {
    forall i | 0 <= i < |ts| :: ValidToken(ts[i])
  }

  lemma NeighbourFollows(a: Token, b: Token)
    requires ValidToken(b) && Neighbours(a, b)
    ensures Text(b) != "" && MayFollow(a, Text(b)[0])
  {
    if b.Num? {
      NumberReads(b.text, "");
    }
  }

  lemma LayoutFollows(t: Token, ts: seq<Token>, gaps: seq<string>)
    requires |gaps| == |ts| + 1 && AreGaps(gaps) && AllValid(ts) && (ts != [] ==> Neighbours(t, ts[0]))
    ensures Follows(t, Layout(ts, gaps))
  {
    if gaps[0] != "" {
      assert Layout(ts, gaps)[0] == gaps[0][0];
      assert IsGap(gaps[0]);
    } else if ts != [] {
      NeighbourFollows(t, ts[0]);
      assert Layout(ts, gaps)[0] == Text(ts[0])[0];
    }
  }

  /** Layout does not matter: tokens that can stand next to each other are read back from any layout. */
  lemma {:induction false} LayoutLexes(ts: seq<Token>, gaps: seq<string>)
    requires |gaps| == |ts| + 1 && AreGaps(gaps) && AllValid(ts) && AllNeighbours(ts)
    ensures Lex(Layout(ts, gaps)) == Some(ts)
    decreases |ts|
  {
    if ts == [] {
      assert Layout(ts, gaps) == gaps[0] + "";
      SkipGap(gaps[0], "");
    } else {
      NeighboursTail(ts);
      LayoutLexes(ts[1..], gaps[1..]);
      LayoutOneMore(ts, gaps);
    }
  }

  lemma LayoutOneMore(ts: seq<Token>, gaps: seq<string>)
    requires ts != [] && |gaps| == |ts| + 1 && AreGaps(gaps) && AllValid(ts)
    requires |ts| > 1 ==> Neighbours(ts[0], ts[1..][0])
    requires Lex(Layout(ts[1..], gaps[1..])) == Some(ts[1..])
    ensures Lex(Layout(ts, gaps)) == Some(ts)
  {
    var rest := Layout(ts[1..], gaps[1..]);
    assert Layout(ts, gaps) == gaps[0] + (Text(ts[0]) + rest);
    LayoutFollows(ts[0], ts[1..], gaps[1..]);
    FirstTokenLexes(gaps[0], ts[0], rest);
    assert [ts[0]] + ts[1..] == ts;
  }

  lemma NeighboursTail(ts: seq<Token>)
    requires ts != [] && AllNeighbours(ts)
    ensures AllNeighbours(ts[1..]) && (|ts| > 1 ==> Neighbours(ts[0], ts[1..][0]))
  {
    forall i | 0 <= i < |ts[1..]| - 1 ensures Neighbours(ts[1..][i], ts[1..][i + 1]) {
      assert Neighbours(ts[i + 1], ts[(i + 1) + 1]);
    }
    if |ts| > 1 { assert Neighbours(ts[0], ts[0 + 1]); }
  }

  lemma FirstTokenLexes(gap: string, t: Token, rest: string)
    requires IsGap(gap) && ValidToken(t) && Follows(t, rest) && Lex(rest).Some?
    ensures Lex(gap + (Text(t) + rest)) == Some([t] + Lex(rest).value)
  {
    SkipGap(gap, Text(t) + rest);
    TokenReads(t, rest);
    assert (Text(t) + rest)[|Text(t)|..] == rest;
  }

  lemma LayoutAfterSpace(c: char, ts: seq<Token>, gaps: seq<string>)
    requires |gaps| == |ts| + 1 && AreGaps(gaps) && IsSpace(c)
    ensures AreGaps([[c] + gaps[0]] + gaps[1..])
    ensures Layout(ts, [[c] + gaps[0]] + gaps[1..]) == [c] + Layout(ts, gaps)
  {
    var more := [[c] + gaps[0]] + gaps[1..];
    assert IsGap(gaps[0]);
    assert more[1..] == gaps[1..];
  }

  lemma LayoutAfterToken(t: Token, ts: seq<Token>, gaps: seq<string>)
    requires |gaps| == |ts| + 1
    ensures Layout([t] + ts, [""] + gaps) == Text(t) + Layout(ts, gaps)
  {
    assert ([t] + ts)[1..] == ts && ([""] + gaps)[1..] == gaps;
  }

  /** Every accepted string is a layout of the tokens read from it. */
  lemma {:induction false} LexIsLayout(s: string) returns (gaps: seq<string>)
    requires Lex(s).Some?
    ensures |gaps| == |Lex(s).value| + 1 && AreGaps(gaps) && AllValid(Lex(s).value)
    ensures s == Layout(Lex(s).value, gaps)
    decreases |s|
  {
    if s == "" {
      gaps := [""];
    } else if IsSpace(s[0]) {
      var more := LexIsLayout(s[1..]);
      LayoutAfterSpace(s[0], Lex(s).value, more);
      gaps := [[s[0]] + more[0]] + more[1..];
      assert s == [s[0]] + s[1..];
    } else {
      LexStep(s);
      var t := LexOne(s).value;
      var rest := s[|Text(t)|..];
      var more := LexIsLayout(rest);
      gaps := [""] + more;
      LayoutStep(s, t, rest, more);
    }
  }

  /** The first token, and what is left after it. */
  lemma LexStep(s: string)
    requires s != "" && !IsSpace(s[0]) && Lex(s).Some?
    ensures LexOne(s).Some?
    ensures var t := LexOne(s).value;
      && ValidToken(t) && 0 < |Text(t)| <= |s|
      && Lex(s[|Text(t)|..]).Some? && Lex(s).value == [t] + Lex(s[|Text(t)|..]).value
      && s == Text(t) + s[|Text(t)|..]
  {
    LexOneReadsText(s);
  }

  lemma LayoutStep(s: string, t: Token, rest: string, more: seq<string>)
    requires ValidToken(t) && s == Text(t) + rest && Lex(rest).Some? && Lex(s).Some?
    requires Lex(s).value == [t] + Lex(rest).value && |more| == |Lex(rest).value| + 1 && AreGaps(more)
    requires AllValid(Lex(rest).value) && rest == Layout(Lex(rest).value, more)
    ensures AreGaps([""] + more) && AllValid(Lex(s).value) && s == Layout(Lex(s).value, [""] + more)
  {
    LayoutAfterToken(t, Lex(rest).value, more);
  }

  // ---- the tokenizer loop ----

  method SkipDigits(expr: string, i: nat) returns (j: nat)
    requires i <= |expr|
    ensures i <= j <= |expr| && j == i + DigitRun(expr[i..])
  {
    j := i;
    while j < |expr| && IsDigit(expr[j])
      invariant i <= j <= |expr| && forall k | i <= k < j :: IsDigit(expr[k])
    {
      j := j + 1;
    }
    DigitRunIs(expr[i..], j - i);
  }

  /** The digits, and the decimal part if there is one, from a position that holds a digit. */
  method ScanUnsigned(expr: string, i: nat) returns (end: Option<nat>)
    requires i < |expr|
    ensures end.Some? <==> UnsignedLen(expr[i..]).Some?
    ensures end.Some? ==> end.value == i + UnsignedLen(expr[i..]).value
  {
    var j := SkipDigits(expr, i);
    if j < |expr| && expr[j] == '.' {
      if j + 1 < |expr| && IsDigit(expr[j + 1]) {
        assert expr[i..][j - i + 1..] == expr[j + 1..];
        var k := SkipDigits(expr, j + 1);
        if k < |expr| && expr[k] == '.' { return None; }
        return Some(k);
      }
    }
    return Some(j);
  }

  ghost function Prepend(ts: seq<Token>, r: Option<seq<Token>>): Option<seq<Token>> {
    if r.Some? then Some(ts + r.value) else None
  }

  lemma PrependMore(ts: seq<Token>, t: Token, r: Option<seq<Token>>)
    ensures Prepend([], r) == r
    ensures Prepend(ts + [t], r) == Prepend(ts, Prepend([t], r))
  {
    if r.Some? {
      assert [] + r.value == r.value;
      assert ts + [t] + r.value == ts + ([t] + r.value);
    }
  }

  /** A number with an optional minus sign. */
  method ScanNumber(expr: string, i: nat) returns (end: Option<nat>)
    requires i < |expr|
    ensures end.Some? <==> NumberLen(expr[i..]).Some?
    ensures end.Some? ==> end.value == i + NumberLen(expr[i..]).value
  {
    if IsDigit(expr[i]) {
      end := ScanUnsigned(expr, i);
    } else if expr[i] == '-' && i + 1 < |expr| && IsDigit(expr[i + 1]) {
      assert expr[i..][1..] == expr[i + 1..];
      end := ScanUnsigned(expr, i + 1);
    } else {
      end := None;
    }
  }

  /** One token from a position that holds no white space, and where it ends. */
  method ReadToken(expr: string, i: nat) returns (r: Option<(Token, nat)>)
    requires i < |expr| && !IsSpace(expr[i])
    ensures r.Some? <==> LexOne(expr[i..]).Some?
    ensures r.Some? ==> r.value.0 == LexOne(expr[i..]).value && r.value.1 == i + |Text(r.value.0)| <= |expr|
  {
    var rest := expr[i..];
    if LexOne(rest).Some? { LexOneReadsText(rest); }
    var symbol := LexSymbol(rest);
    if symbol.Some? { return Some((symbol.value, i + |Text(symbol.value)|)); }
    if IsTrue(rest) { return Some((True, i + 4)); }
    if IsFalse(rest) { return Some((False, i + 5)); }
    var end := ScanNumber(expr, i);
    if end.None? { return None; }
    TailOfPrefix(expr, i, end.value);
    return Some((Num(expr[i..end.value]), end.value));
  }

  method Tokenize(expr: string) returns (r: Option<seq<Token>>)
    ensures r == Lex(expr)
  {
    var tokens: seq<Token> := [];
    var i := 0;
    assert expr[0..] == expr;
    PrependMore([], True, Lex(expr));
    while i < |expr|
      invariant i <= |expr| && Prepend(tokens, Lex(expr[i..])) == Lex(expr)
    {
      var rest := expr[i..];
      if IsSpace(expr[i]) {
        assert rest[1..] == expr[i + 1..];
        i := i + 1;
        continue;
      }
      var t := ReadToken(expr, i);
      if t.None? { return None; }
      assert rest[t.value.1 - i..] == expr[t.value.1..];
      LexOneReadsText(rest);
      PrependMore(tokens, t.value.0, Lex(expr[t.value.1..]));
      tokens, i := tokens + [t.value.0], t.value.1;
    }
    assert tokens + [] == tokens;
    return Some(tokens);
  }
}
