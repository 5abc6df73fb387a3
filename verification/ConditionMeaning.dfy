/** What conditions mean: a string is true exactly when it writes down a truthy expression, layout and
    redundant parentheses aside. */
module ConditionMeaning {
  import opened Common
  import opened ConditionLexer
  import opened ConditionParser
  import opened ConditionEvaluator

  // ---- printing with as few parentheses as possible ----

  function ToDisj(e: Expr): Disj
    decreases e, 0
  {
    match e
    case Const(b) => OneConj(OneCmp(Bare(PConst(b))))
    case Literal(text) => OneConj(OneCmp(Bare(PNum(text))))
    case Bin(OrOp, l, r) => OrMore(ToDisj(l), ToConj(r))
    case Bin(AndOp, l, r) => OneConj(AndMore(ToConj(l), ToCmp(r)))
    case Bin(RelOf(op), l, r) => OneConj(OneCmp(Compare(op, ToPrimary(l), ToPrimary(r))))
  }

  function ToPrimary(e: Expr): Primary
    decreases e, 1
  {
    match e
    case Const(b) => PConst(b)
    case Literal(text) => PNum(text)
    case Bin(_, _, _) => Paren(ToDisj(e))
  }

  function ToCmp(e: Expr): Cmp
    decreases e, 2
  {
    match e
    case Bin(RelOf(op), l, r) => Compare(op, ToPrimary(l), ToPrimary(r))
    case _ => Bare(ToPrimary(e))
  }

  function ToConj(e: Expr): Conj
    decreases e, 3
  {
    match e
    case Bin(AndOp, l, r) => AndMore(ToConj(l), ToCmp(r))
    case _ => OneCmp(ToCmp(e))
  }

  /** The printed tree stands for the expression it was made from. */
  lemma {:induction false} PrintsItself(e: Expr)
    ensures DisjExpr(ToDisj(e)) == e && ConjExpr(ToConj(e)) == e
    ensures CmpExpr(ToCmp(e)) == e && PrimaryExpr(ToPrimary(e)) == e
  {
    if e.Bin? {
      PrintsItself(e.l);
      PrintsItself(e.r);
      match e.op {
        case OrOp =>
        case AndOp => assert ConjExpr(AndMore(ToConj(e.l), ToCmp(e.r))) == e;
        case RelOf(op) => assert CmpExpr(Compare(op, ToPrimary(e.l), ToPrimary(e.r))) == e;
      }
      assert DisjExpr(ToDisj(e)) == e;
      assert PrimaryExpr(ToPrimary(e)) == DisjExpr(ToDisj(e));
    }
    assert PrimaryExpr(ToPrimary(e)) == e;
    assert CmpExpr(ToCmp(e)) == e;
    assert ConjExpr(ToConj(e)) == e;
  }

  /** At every level the chosen tree costs at most one pair of parentheses more than at the top. */
  lemma {:induction false} LevelCost(e: Expr)
    ensures |PrintConj(ToConj(e))| <= |PrintCmp(ToCmp(e))| <= |PrintPrimary(ToPrimary(e))|
    ensures |PrintDisj(ToDisj(e))| <= |PrintConj(ToConj(e))|
    ensures |PrintPrimary(ToPrimary(e))| <= |PrintDisj(ToDisj(e))| + 2
  {}

  lemma {:induction false} PrimaryFewest(p: Primary)
    ensures |PrintPrimary(ToPrimary(PrimaryExpr(p)))| <= |PrintPrimary(p)|
    decreases p
  {
    if p.Paren? {
      DisjFewest(p.inner);
      LevelCost(PrimaryExpr(p));
    }
  }

  lemma {:induction false} CmpFewest(c: Cmp)
    ensures |PrintCmp(ToCmp(CmpExpr(c)))| <= |PrintCmp(c)|
    decreases c
  {
    match c
    case Bare(p) =>
      PrimaryFewest(p);
      LevelCost(CmpExpr(c));
    case Compare(_, l, r) =>
      PrimaryFewest(l);
      PrimaryFewest(r);
  }

  lemma {:induction false} ConjFewest(c: Conj)
    ensures |PrintConj(ToConj(ConjExpr(c)))| <= |PrintConj(c)|
    decreases c
  {
    match c
    case OneCmp(x) =>
      CmpFewest(x);
      LevelCost(ConjExpr(c));
    case AndMore(init, last) =>
      ConjFewest(init);
      CmpFewest(last);
  }

  /** No way of writing an expression takes fewer tokens than the printed one. */
  lemma {:induction false} DisjFewest(d: Disj)
    ensures |PrintDisj(ToDisj(DisjExpr(d)))| <= |PrintDisj(d)|
    decreases d
  {
    match d
    case OneConj(x) =>
      ConjFewest(x);
      LevelCost(DisjExpr(d));
    case OrMore(init, last) =>
      DisjFewest(init);
      ConjFewest(last);
  }

  // ---- strings ----

  /** `s` is a layout of the tree `d`. */
  ghost predicate Writes(s: string, d: Disj, gaps: seq<string>) {
    && ValidExpr(DisjExpr(d))
    && |gaps| == |PrintDisj(d)| + 1 && AreGaps(gaps)
    && s == Layout(PrintDisj(d), gaps)
  }

  /** A written tree is read back, whatever the layout. */
  lemma WrittenIsRead(s: string, d: Disj, gaps: seq<string>)
    requires Writes(s, d, gaps)
    ensures Lex(s) == Some(PrintDisj(d)) && Parse(PrintDisj(d)) == Some(d)
  {
    DisjShape(d);
    LayoutLexes(PrintDisj(d), gaps);
    ParsePrinted(d);
  }

  /** Every expression, printed with the fewest parentheses and any white space, evaluates to its value. */
  lemma PrintedEvaluates(e: Expr, gaps: seq<string>)
    requires ValidExpr(e) && |gaps| == |PrintDisj(ToDisj(e))| + 1 && AreGaps(gaps)
    ensures ConditionValue(Layout(PrintDisj(ToDisj(e)), gaps)) == Truthy(Eval(e))
  {
    PrintsItself(e);
    WrittenIsRead(Layout(PrintDisj(ToDisj(e)), gaps), ToDisj(e), gaps);
  }

  /** A string writes at most one tree. */
  lemma OneReading(s: string, d1: Disj, gaps1: seq<string>, d2: Disj, gaps2: seq<string>)
    requires Writes(s, d1, gaps1) && Writes(s, d2, gaps2)
    ensures d1 == d2
  {
    WrittenIsRead(s, d1, gaps1);
    WrittenIsRead(s, d2, gaps2);
  }

  ghost predicate WritesTruth(s: string) {
    exists d, gaps :: Writes(s, d, gaps) && Truthy(Eval(DisjExpr(d)))
  }

  /** A condition is true exactly when it writes an expression with a truthy value; every other string is
      false. */
  lemma TrueExactlyWhenWritten(s: string)
    ensures ConditionValue(s) <==> WritesTruth(s)
  {
    if ConditionValue(s) {
      var gaps := LexIsLayout(s);
      var d := Parse(Lex(s).value).value;
      assert Writes(s, d, gaps);
    }
    if WritesTruth(s) {
      var d, gaps :| Writes(s, d, gaps) && Truthy(Eval(DisjExpr(d)));
      WrittenIsRead(s, d, gaps);
    }
  }
}
