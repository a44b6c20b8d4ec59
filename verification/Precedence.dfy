/** Formulas written with no more parentheses than the operators' precedence needs, and parsed again. */
module Precedence {
  import opened Options
  import opened Addresses
  import W = Workbooks
  import opened Lexer
  import opened Formulas
  import opened RpnRoundTrip

  datatype Tree =
    | Number(v: nat)
    | Cell(row: nat, col: nat)
    | Text(text: string)
    | Elsewhere(sheet: string, row: nat, col: nat)
    | Infix(op: W.BinOp, left: Tree, right: Tree)
    | Negated(arg: Tree)
    | Percented(arg: Tree)

  function ExprOf(t: Tree): W.Expr {
    match t
    case Number(v) => W.Num(v as real)
    case Cell(r, c) => W.CellRef("", r, c)
    case Text(x) => W.Str(x)
    case Elsewhere(sheet, r, c) => W.CellRef(sheet, r, c)
    case Infix(op, a, b) => W.Bin(op, ExprOf(a), ExprOf(b))
    case Negated(a) => W.Un(W.Negate, ExprOf(a))
    case Percented(a) => W.Un(W.Percent, ExprOf(a))
  }

  /** A sheet's name may have any character but the one that quotes it. */
  predicate Sheeted(t: Tree) {
    match t
    case Elsewhere(sheet, _, _) => forall k :: 0 <= k < |sheet| ==> sheet[k] != '\''
    case Infix(_, a, b) => Sheeted(a) && Sheeted(b)
    case Negated(a) => Sheeted(a)
    case Percented(a) => Sheeted(a)
    case _ => true
  }

  // ----- writing -----

  /** A text's quotes are written twice. */
  function Doubled(x: string): string {
    if |x| == 0 then "" else (if x[0] == '"' then ['"', '"'] else [x[0]]) + Doubled(x[1..])
  }

  function QuotedText(x: string): string { ['"'] + (Doubled(x) + ['"']) }

  function SheetText(sheet: string, r: nat, c: nat): string { (['\''] + sheet + ['\'']) + (['!'] + A1Text(r, c)) }

  function SignText(op: W.BinOp): string {
    match op
    case Plus => "+"
    case Minus => "-"
    case Times => "*"
    case Over => "/"
    case Power => "^"
    case Equal => "="
    case NotEqual => "<>"
    case Less => "<"
    case Greater => ">"
    case AtMost => "<="
    case AtLeast => ">="
    case OtherOp => "&"
  }

  /** Comparisons bind least, then joining, sums, products and powers. */
  function Level(op: W.BinOp): nat {
    match op
    case OtherOp => 2
    case Plus => 3
    case Minus => 3
    case Times => 4
    case Over => 4
    case Power => 5
    case _ => 1
  }

  /** A sign binds more than every operator, a percent more than a sign. */
  function Rank(t: Tree): nat {
    match t
    case Infix(op, _, _) => Level(op)
    case Negated(_) => 6
    case _ => 7
  }

  /** t where something of rank p is due. */
  function Show(t: Tree, p: nat): string
    decreases t, 1
  {
    if Rank(t) < p then "(" + Bare(t) + ")" else Bare(t)
  }

  /** Operators of one level group to the left, powers to the right. */
  function Bare(t: Tree): string
    decreases t, 0
  {
    match t
    case Number(v) => Decimal(v)
    case Cell(r, c) => A1Text(r, c)
    case Text(x) => QuotedText(x)
    case Elsewhere(sheet, r, c) => SheetText(sheet, r, c)
    case Infix(op, a, b) => Show(a, LeftRank(op)) + (SignText(op) + Show(b, RightRank(op)))
    case Negated(a) => "-" + Show(a, 6)
    case Percented(a) => Show(a, 7) + "%"
  }

  /** The ranks that an operator's operands are written with. */
  function LeftRank(op: W.BinOp): nat { if op == W.Power then 6 else Level(op) }

  function RightRank(op: W.BinOp): nat { if op == W.Power then 5 else Level(op) + 1 }

  // ----- tokens -----

  predicate IsEnding(c: char) { c in {')', '%', '+', '-', '*', '/', '^', '=', '<', '>', '&'} }

  /** What can follow a tree's text. */
  predicate Ends(s: string, j: nat) { j == |s| || (j < |s| && IsEnding(s[j])) }

  /** What a text can begin with. */
  predicate Begins(s: string, j: nat) {
    j < |s| && (IsDigit(s[j]) || IsLetter(s[j]) || s[j] in {'(', '-', '"', '\''})
  }

  lemma {:induction false} ShownBegins(t: Tree, p: nat)
    ensures |Show(t, p)| > 0 && Begins(Show(t, p), 0) && Show(t, p)[0] != '='
    ensures |Bare(t)| > 0 && Begins(Bare(t), 0) && Bare(t)[0] != '='
    decreases t
  {
    hide A1Text;
    hide Decimal;
    match t
    case Number(v) => DecimalRoundTrip(v);
    case Cell(r, c) => CellBegins(r, c);
    case Text(x) =>
    case Elsewhere(_, _, _) =>
    case Infix(op, a, _) => ShownBegins(a, LeftRank(op));
    case Negated(_) =>
    case Percented(a) => ShownBegins(a, 7);
  }

  lemma CellBegins(r: nat, c: nat)
    ensures |A1Text(r, c)| > 0 && IsLetter(A1Text(r, c)[0])
  {
    LettersRoundTrip(c + 1);
  }

  function SignOf(op: W.BinOp): Sign {
    match op
    case NotEqual => Two('<', '>')
    case AtMost => Two('<', '=')
    case AtLeast => Two('>', '=')
    case _ => One(SignText(op)[0])
  }

  lemma SignMeaning(op: W.BinOp)
    ensures BinOf(SignOf(op)) == op && Prec(SignOf(op)) == Level(op) && SignOf(op) != One('%')
    ensures 1 <= |SignText(op)| <= 2 && IsEnding(SignText(op)[0])
  {
  }

  lemma SignRead(s: string, j: nat, op: W.BinOp)
    requires TextAt(s, j, SignText(op)) && Begins(s, j + |SignText(op)|)
    ensures TokAt(s, j) == State(SignTok(SignOf(op)), j + |SignText(op)|, true)
  {
    SignHere(s, j, op);
    var c := s[j];
    assert Skip(s, j) == j && !IsDigit(c) && !IsLetter(c) && c !in {'(', ')', ',', '"', '\'', '.', '$', '_'};
    hide Skip;
    hide SignAt;
    hide SignOf;
    hide SignText;
    hide TextAt;
    hide Begins;
  }

  lemma SignHere(s: string, j: nat, op: W.BinOp)
    requires TextAt(s, j, SignText(op)) && Begins(s, j + |SignText(op)|)
    ensures j < |s| && s[j] in {'+', '-', '*', '/', '^', '=', '<', '>', '&'}
    ensures SignAt(s, j) == (SignOf(op), j + |SignText(op)|)
  {
    TextChar(s, j, SignText(op), 0);
    if |SignText(op)| > 1 { TextChar(s, j, SignText(op), 1); }
    hide TextAt;
  }

  lemma CharRead(s: string, i: nat)
    requires i < |s| && s[i] in {'(', ')', '-', '%'}
    ensures TokAt(s, i).at == i + 1 && TokAt(s, i).ok
    ensures TokAt(s, i).cur == if s[i] == '(' then Open else if s[i] == ')' then Close else SignTok(One(s[i]))
  {
  }

  lemma NumberRead(s: string, i: nat, v: nat)
    requires TextAt(s, i, Decimal(v)) && Ends(s, i + |Decimal(v)|)
    ensures NextTok(s, i) == (NumTok(Decimal(v)), i + |Decimal(v)|)
  {
    DecimalRoundTrip(v);
    var t := Decimal(v);
    hide Decimal;
    TextChar(s, i, t, 0);
    TextAll(s, i, t, IsNumChar);
    RunIs(s, i, i + |t|, IsNumChar);
    assert Skip(s, i) == i;
  }

  lemma CellRead(s: string, i: nat, r: nat, c: nat)
    requires TextAt(s, i, A1Text(r, c)) && Ends(s, i + |A1Text(r, c)|)
    ensures NextTok(s, i) == (RefTok(A1Text(r, c)), i + |A1Text(r, c)|)
  {
    var m := A1Shape(r, c);
    var t := A1Text(r, c);
    hide A1Text;
    assert Skip(s, i + |t|) == i + |t|;
    WordRun(s, i, t);
    LooksLikeRef(t, m);
    hide LooksRef;
    hide Run;
    hide NextTok;
    hide Skip;
    hide LettersDigits;
    WordCell(s, i, i + |t|);
  }

  lemma StringStep(s: string, i: nat, x: string, e: nat)
    requires i < |s| && e <= |s|
    ensures s[i] != '"' && StringFrom(s, i + 1) == (x, e) ==> StringFrom(s, i) == ([s[i]] + x, e)
    ensures s[i] == '"' && i + 1 < |s| && s[i + 1] == '"' && StringFrom(s, i + 2) == (x, e) ==>
      StringFrom(s, i) == (['"'] + x, e)
    ensures s[i] == '"' && (i + 1 < |s| ==> s[i + 1] != '"') ==> StringFrom(s, i) == ("", i + 1)
  {
  }

  /** The first character of a doubled text, and the rest. */
  lemma DoubledPieces(s: string, i: nat, x: string)
    requires |x| > 0 && TextAt(s, i, Doubled(x) + ['"'])
    ensures var k := if x[0] == '"' then 2 else 1;
      && i + 1 < |s| && s[i] == x[0] && (x[0] == '"' ==> s[i + 1] == '"') && TextAt(s, i + k, Doubled(x[1..]) + ['"'])
      && |Doubled(x)| == k + |Doubled(x[1..])|
  {
    var first := if x[0] == '"' then ['"', '"'] else [x[0]];
    assert Doubled(x) + ['"'] == first + (Doubled(x[1..]) + ['"']);
    hide Doubled;
    TextSplit(s, i, first, Doubled(x[1..]) + ['"']);
    TextChar(s, i, first, 0);
    if x[0] == '"' { TextChar(s, i, first, 1); }
  }

  lemma NothingDoubled(s: string, i: nat)
    requires TextAt(s, i, Doubled("") + ['"'])
    ensures i < |s| && s[i] == '"' && Doubled("") == ""
  {
    TextChar(s, i, ['"'], 0);
  }

  lemma {:induction false} DoubledRead(s: string, i: nat, x: string)
    requires TextAt(s, i, Doubled(x) + ['"']) && (i + |Doubled(x)| + 1 < |s| ==> s[i + |Doubled(x)| + 1] != '"')
    ensures StringFrom(s, i) == (x, i + |Doubled(x)| + 1) && i + |Doubled(x)| + 1 <= |s|
    decreases |x|
  {
    hide *;
    var e := i + |Doubled(x)| + 1;
    if |x| == 0 {
      assert x == "";
      NothingDoubled(s, i);
      StringStep(s, i, "", e);
    } else {
      DoubledPieces(s, i, x);
      DoubledRead(s, i + (if x[0] == '"' then 2 else 1), x[1..]);
      StringStep(s, i, x[1..], e);
      assert x == [x[0]] + x[1..];
    }
  }

  lemma TextRead(s: string, i: nat, x: string)
    requires TextAt(s, i, QuotedText(x)) && Ends(s, i + |QuotedText(x)|)
    ensures NextTok(s, i) == (StrTok(x), i + |QuotedText(x)|)
  {
    TextSplit(s, i, ['"'], Doubled(x) + ['"']);
    TextChar(s, i, ['"'], 0);
    DoubledRead(s, i + 1, x);
    hide Doubled;
    hide StringFrom;
    hide TextAt;
    assert Skip(s, i) == i;
  }

  lemma SheetPieces(s: string, i: nat, sheet: string, r: nat, c: nat)
    requires TextAt(s, i, SheetText(sheet, r, c))
    ensures var m := i + 1 + |sheet|;
      && TextAt(s, i + 1, sheet) && m + 1 < |s| && s[i] == '\'' && s[m] == '\'' && s[m + 1] == '!'
      && TextAt(s, m + 2, A1Text(r, c))
  {
    hide A1Text;
    var m := i + 1 + |sheet|;
    TextSplit(s, i, ['\''] + sheet + ['\''], ['!'] + A1Text(r, c));
    TextSplit(s, i, ['\''] + sheet, ['\'']);
    TextSplit(s, i, ['\''], sheet);
    TextSplit(s, m + 1, ['!'], A1Text(r, c));
    TextChar(s, i, ['\''], 0);
    TextChar(s, m, ['\''], 0);
    TextChar(s, m + 1, ['!'], 0);
  }

  lemma AddressRun(s: string, i: nat, r: nat, c: nat)
    requires TextAt(s, i, A1Text(r, c)) && Ends(s, i + |A1Text(r, c)|)
    ensures Run(s, i, IsRangeChar) == i + |A1Text(r, c)|
  {
    var m := A1Shape(r, c);
    var t := A1Text(r, c);
    hide A1Text;
    TextAll(s, i, t, IsRangeChar);
    RunIs(s, i, i + |t|, IsRangeChar);
  }

  lemma SheetRead(s: string, i: nat, sheet: string, r: nat, c: nat)
    requires forall k :: 0 <= k < |sheet| ==> sheet[k] != '\''
    requires TextAt(s, i, SheetText(sheet, r, c)) && Ends(s, i + |SheetText(sheet, r, c)|)
    ensures NextTok(s, i) == (RefTok(SheetText(sheet, r, c)), i + |SheetText(sheet, r, c)|)
  {
    hide *;
    SheetPieces(s, i, sheet, r, c);
    var (m, e) := (i + 1 + |sheet|, i + |SheetText(sheet, r, c)|);
    SheetSize(sheet, r, c);
    TextAll(s, i + 1, sheet, NotQuote);
    RunIs(s, i + 1, m, NotQuote);
    AddressRun(s, m + 2, r, c);
    TextIs(s, i + 1, sheet);
    TextIs(s, m + 2, A1Text(r, c));
    QuotedIs(s, i, m, e);
    QuoteNext(s, i);
  }

  lemma SheetSize(sheet: string, r: nat, c: nat)
    ensures |SheetText(sheet, r, c)| == |sheet| + 3 + |A1Text(r, c)|
    ensures SheetText(sheet, r, c) == ['\''] + sheet + ['\''] + (['!'] + A1Text(r, c))
    ensures forall k: char :: NotQuote(k) <==> k != '\''
  {
    hide A1Text;
  }

  lemma TextIs(s: string, i: nat, t: string)
    requires TextAt(s, i, t)
    ensures i + |t| <= |s| && s[i..i + |t|] == t
  {
  }

  lemma QuotedIs(s: string, i: nat, m: nat, e: nat)
    requires i < m && m + 1 < e <= |s| && s[m + 1] == '!'
    requires Run(s, i + 1, NotQuote) == m && Run(s, m + 2, IsRangeChar) == e
    ensures QuotedRef(s, i) == (['\''] + s[i + 1..m] + ['\''] + (['!'] + s[m + 2..e]), e)
  {
    hide Run;
    assert s[m + 1..e] == ['!'] + s[m + 2..e];
  }

  lemma QuoteNext(s: string, i: nat)
    requires i < |s| && s[i] == '\''
    ensures NextTok(s, i) == (RefTok(QuotedRef(s, i).0), QuotedRef(s, i).1)
  {
    hide QuotedRef;
    assert Run(s, i, IsBlank) == i;
  }

  lemma {:induction false} MarkIs(t: string, n: nat, j: nat)
    requires j < n <= |t| && t[j] == '!' && forall k :: j < k < n ==> t[k] != '!'
    ensures LastMarkAt(t, n) == j
  {
    if j < n - 1 { MarkIs(t, n - 1, j); }
  }

  lemma SheetBack(sheet: string, r: nat, c: nat)
    ensures MakeRef(SheetText(sheet, r, c)) == W.CellRef(sheet, r, c)
  {
    var (raw, t) := (SheetText(sheet, r, c), A1Text(r, c));
    var m := A1Shape(r, c);
    A1RoundTrip(r, c);
    hide A1Text;
    hide ParsedAddress;
    var j := |sheet| + 2;
    MarkIs(raw, |raw|, j);
    assert raw[..j] == ['\''] + sheet + ['\''] && raw[j + 1..] == t;
    assert raw[..j][1..j - 1] == sheet;
    ColonIs(t, 0, |t|);
    hide LastMarkAt;
    hide ColonAt;
  }

  // ----- how a text is read -----

  /** From i to j a primary is read, x, and percents may follow. */
  predicate AsPrimary(num: string -> real, s: string, i: nat, j: nat, x: W.Expr) {
    i <= |s| && j <= |s| && ParseUnary(num, s, TokAt(s, i)) == ParsePercents(s, TokAt(s, j), x)
  }

  /** From i to j x is read, and operators that bind at least m may follow. */
  predicate AsExpr(num: string -> real, s: string, i: nat, j: nat, x: W.Expr, m: nat) {
    i <= |s| && j <= |s| && ParseExpr(num, s, TokAt(s, i), m) == ParseRest(num, s, TokAt(s, j), x, m)
  }

  /** How tightly the token at j binds to what comes before it. */
  function Binding(s: string, j: nat): nat
    requires j <= |s|
  {
    var t := TokAt(s, j).cur; if t.SignTok? then Prec(t.sign) else 0
  }

  predicate PercentAt(s: string, j: nat)
    requires j <= |s|
  {
    IsSign(TokAt(s, j).cur, '%')
  }

  /** After a power nothing as tight may follow; after anything else of rank p nothing tighter. */
  function Limit(p: nat): nat { if p == 5 then 4 else p }

  /** From i to j something of rank p is read, x, unless what follows binds it away. */
  predicate Reads(num: string -> real, s: string, i: nat, j: nat, x: W.Expr, p: nat) {
    && i <= |s| && j <= |s|
    && (p >= 7 ==> AsPrimary(num, s, i, j, x))
    && (p == 6 && !PercentAt(s, j) ==> Operand(num, s, i, j, x))
    && (p <= 5 && !PercentAt(s, j) && Binding(s, j) <= Limit(p) ==>
          forall m :: 1 <= m <= p ==> AsExpr(num, s, i, j, x, m))
  }

  lemma PrimaryIsUnary(num: string -> real, s: string, i: nat, j: nat, x: W.Expr)
    requires AsPrimary(num, s, i, j, x) && !PercentAt(s, j)
    ensures Operand(num, s, i, j, x)
  {
    hide ParseUnary;
    hide TokAt;
  }

  lemma UnaryIsExpr(num: string -> real, s: string, i: nat, j: nat, x: W.Expr, m: nat)
    requires Operand(num, s, i, j, x)
    ensures AsExpr(num, s, i, j, x, m)
  {
    hide ParseUnary;
    hide ParseRest;
    hide TokAt;
  }

  /** What has a rank has every lower one. */
  lemma LowerRank(num: string -> real, s: string, i: nat, j: nat, x: W.Expr, r: nat, p: nat)
    requires Reads(num, s, i, j, x, r) && 1 <= p <= r
    ensures Reads(num, s, i, j, x, p)
  {
    hide AsPrimary;
    hide Operand;
    hide AsExpr;
    hide Binding;
    if !PercentAt(s, j) {
      if r >= 7 { PrimaryIsUnary(num, s, i, j, x); }
      if r >= 6 {
        forall m | 1 <= m <= p ensures AsExpr(num, s, i, j, x, m) {
          UnaryIsExpr(num, s, i, j, x, m);
        }
      }
    }
    hide PercentAt;
  }

  lemma TokenPrimary(num: string -> real, s: string, i: nat, j: nat, x: W.Expr)
    requires i <= |s| && j <= |s| && ParsePrimary(num, s, TokAt(s, i)) == (x, TokAt(s, j))
    requires !TokAt(s, i).cur.SignTok?
    ensures AsPrimary(num, s, i, j, x)
  {
    hide ParsePrimary;
    hide ParsePercents;
    hide TokAt;
  }

  lemma NumberLeaf(num: string -> real, s: string, i: nat, j: nat, t: string)
    requires i <= |s| && j <= |s| && NextTok(s, i) == (NumTok(t), j)
    ensures AsPrimary(num, s, i, j, W.Num(num(t)))
  {
    AfterToken(s, i);
    hide NextTok;
    hide AsPrimary;
    assert ParsePrimary(num, s, TokAt(s, i)) == (W.Num(num(t)), TokAt(s, j));
    TokenPrimary(num, s, i, j, W.Num(num(t)));
  }

  lemma RefLeaf(num: string -> real, s: string, i: nat, j: nat, t: string)
    requires i <= |s| && j <= |s| && NextTok(s, i) == (RefTok(t), j)
    ensures AsPrimary(num, s, i, j, MakeRef(t))
  {
    AfterToken(s, i);
    hide NextTok;
    hide AsPrimary;
    hide MakeRef;
    assert ParsePrimary(num, s, TokAt(s, i)) == (MakeRef(t), TokAt(s, j));
    TokenPrimary(num, s, i, j, MakeRef(t));
  }

  lemma NumberPrimary(num: string -> real, s: string, i: nat, v: nat)
    requires ReadsDecimals(num) && TextAt(s, i, Decimal(v)) && Ends(s, i + |Decimal(v)|)
    ensures AsPrimary(num, s, i, i + |Decimal(v)|, W.Num(v as real))
  {
    assert num(Decimal(v)) == v as real;
    hide *;
    NumberRead(s, i, v);
    NumberLeaf(num, s, i, i + |Decimal(v)|, Decimal(v));
  }

  lemma CellPrimary(num: string -> real, s: string, i: nat, r: nat, c: nat)
    requires TextAt(s, i, A1Text(r, c)) && Ends(s, i + |A1Text(r, c)|)
    ensures AsPrimary(num, s, i, i + |A1Text(r, c)|, W.CellRef("", r, c))
  {
    hide *;
    CellRead(s, i, r, c);
    CellBack(r, c);
    RefLeaf(num, s, i, i + |A1Text(r, c)|, A1Text(r, c));
  }

  lemma TextPrimary(num: string -> real, s: string, i: nat, x: string)
    requires TextAt(s, i, QuotedText(x)) && Ends(s, i + |QuotedText(x)|)
    ensures AsPrimary(num, s, i, i + |QuotedText(x)|, W.Str(x))
  {
    TextRead(s, i, x);
    hide QuotedText;
    var j := i + |QuotedText(x)|;
    AfterToken(s, i);
    hide NextTok;
    hide AsPrimary;
    assert ParsePrimary(num, s, TokAt(s, i)) == (W.Str(x), TokAt(s, j));
    TokenPrimary(num, s, i, j, W.Str(x));
  }

  lemma SheetPrimary(num: string -> real, s: string, i: nat, sheet: string, r: nat, c: nat)
    requires forall k :: 0 <= k < |sheet| ==> sheet[k] != '\''
    requires TextAt(s, i, SheetText(sheet, r, c)) && Ends(s, i + |SheetText(sheet, r, c)|)
    ensures AsPrimary(num, s, i, i + |SheetText(sheet, r, c)|, W.CellRef(sheet, r, c))
  {
    hide *;
    SheetRead(s, i, sheet, r, c);
    SheetBack(sheet, r, c);
    TextFits(s, i, SheetText(sheet, r, c));
    RefLeaf(num, s, i, i + |SheetText(sheet, r, c)|, SheetText(sheet, r, c));
  }

  lemma TextFits(s: string, i: nat, t: string)
    requires TextAt(s, i, t)
    ensures i + |t| <= |s|
  {
  }

  lemma ParensPrimary(num: string -> real, s: string, i: nat, k: nat, x: W.Expr)
    requires i < k < |s| && s[i] == '(' && s[k] == ')' && AsExpr(num, s, i + 1, k, x, 1)
    ensures AsPrimary(num, s, i, k + 1, x)
  {
    hide *;
    CharRead(s, i);
    CharRead(s, k);
    AfterToken(s, i);
    AfterToken(s, k);
    RestStops(num, s, TokAt(s, k), x, 1);
    ExprMeans(num, s, i + 1, k, x, 1);
    OpenRead(num, s, TokAt(s, i), x, TokAt(s, k));
    TokenPrimary(num, s, i, k + 1, x);
  }

  lemma ExprMeans(num: string -> real, s: string, i: nat, j: nat, x: W.Expr, m: nat)
    requires AsExpr(num, s, i, j, x, m)
    ensures i <= |s| && j <= |s| && ParseExpr(num, s, TokAt(s, i), m) == ParseRest(num, s, TokAt(s, j), x, m)
  {
  }

  lemma OpenRead(num: string -> real, s: string, st: State, x: W.Expr, end: State)
    requires Within(s, st) && Within(s, end) && st.cur == Open && end.cur == Close
    requires ParseExpr(num, s, Adv(s, st), 1) == (x, end)
    ensures ParsePrimary(num, s, st) == (x, Adv(s, end))
  {
    hide Adv;
    hide ParseExpr;
  }

  /** Nothing follows what the next token does not bind. */
  lemma RestStops(num: string -> real, s: string, st: State, x: W.Expr, m: nat)
    requires Within(s, st) && m > 0 && (st.cur.SignTok? ==> Prec(st.cur.sign) < m)
    ensures ParseRest(num, s, st, x, m) == (x, st)
  {
    hide Prec;
  }

  lemma PercentPrimary(num: string -> real, s: string, i: nat, j: nat, x: W.Expr)
    requires AsPrimary(num, s, i, j, x) && j < |s| && s[j] == '%'
    ensures AsPrimary(num, s, i, j + 1, W.Un(W.Percent, x))
  {
    CharRead(s, j);
    AfterToken(s, j);
    hide TokAt;
    hide ParseUnary;
  }

  /** One operator more, when what follows does not bind its right operand. */
  lemma InfixExpr(num: string -> real, s: string, i: nat, j: nat, k: nat, e: nat, op: W.BinOp, x: W.Expr, y: W.Expr,
                  m: nat)
    requires AsExpr(num, s, i, j, x, m) && 1 <= m <= Level(op)
    requires k <= |s| && TokAt(s, j) == State(SignTok(SignOf(op)), k, true)
    requires AsExpr(num, s, k, e, y, RightRank(op)) && Binding(s, e) < RightRank(op)
    ensures AsExpr(num, s, i, e, W.Bin(op, x, y), m)
  {
    SignMeaning(op);
    AfterToken(s, j);
    RestStops(num, s, TokAt(s, e), y, RightRank(op));
    RestGoes(num, s, TokAt(s, j), x, m);
    PowerSign(op);
    hide TokAt;
    hide ParseRest;
    hide ParseExpr;
    hide Prec;
    hide Level;
    hide SignOf;
    hide BinOf;
  }

  lemma PowerSign(op: W.BinOp)
    ensures SignOf(op) == One('^') <==> op == W.Power
    ensures Level(W.Power) == 5 && Level(op) > 0
  {
  }

  lemma RestGoes(num: string -> real, s: string, st: State, x: W.Expr, m: nat)
    requires Within(s, st) && st.ok && st.cur.SignTok? && Prec(st.cur.sign) >= m > 0
    ensures var sign := st.cur.sign;
      var (y, after) := ParseExpr(num, s, Adv(s, st), if sign == One('^') then 5 else Prec(sign) + 1);
      ParseRest(num, s, st, x, m) == ParseRest(num, s, after, W.Bin(BinOf(sign), x, y), m)
  {
    hide Prec;
    hide BinOf;
    hide ParseExpr;
    hide Adv;
  }

  // ----- every tree -----

  lemma InfixPieces(s: string, i: nat, x: string, o: string, y: string)
    requires TextAt(s, i, x + (o + y))
    ensures TextAt(s, i, x) && TextAt(s, i + |x|, o) && TextAt(s, i + |x| + |o|, y)
  {
    TextSplit(s, i, x, o + y);
    TextSplit(s, i + |x|, o, y);
  }

  lemma WrapPieces(s: string, i: nat, x: string)
    requires TextAt(s, i, "(" + x + ")")
    ensures var k := i + 1 + |x|; k < |s| && s[i] == '(' && TextAt(s, i + 1, x) && s[k] == ')'
  {
    TextSplit(s, i, "(" + x, ")");
    TextSplit(s, i, "(", x);
    TextChar(s, i, "(", 0);
    TextChar(s, i + 1 + |x|, ")", 0);
  }

  lemma FirstPiece(s: string, i: nat, c: char, x: string)
    requires TextAt(s, i, [c] + x)
    ensures i < |s| && s[i] == c && TextAt(s, i + 1, x)
  {
    TextSplit(s, i, [c], x);
    TextChar(s, i, [c], 0);
  }

  lemma LastPiece(s: string, i: nat, x: string, c: char)
    requires TextAt(s, i, x + [c])
    ensures i + |x| < |s| && s[i + |x|] == c && TextAt(s, i, x)
  {
    TextSplit(s, i, x, [c]);
    TextChar(s, i + |x|, [c], 0);
  }

  /** Where a tree's text stands before an ending, the tree is read. */
  lemma {:induction false} ReadsShown(num: string -> real, s: string, i: nat, t: Tree, p: nat)
    requires ReadsDecimals(num) && Sheeted(t) && 1 <= p <= 7 && TextAt(s, i, Show(t, p)) && Ends(s, i + |Show(t, p)|)
    ensures Reads(num, s, i, i + |Show(t, p)|, ExprOf(t), p)
    decreases t, 1
  {
    hide *;
    ShowParts(t, p);
    if Rank(t) < p {
      var k := i + 1 + |Bare(t)|;
      WrapPieces(s, i, Bare(t));
      ClosingEnds(s, k);
      ReadsBare(num, s, i + 1, t);
      LowerRank(num, s, i + 1, k, ExprOf(t), Rank(t), 1);
      Closed(num, s, i + 1, k, ExprOf(t));
      ParensPrimary(num, s, i, k, ExprOf(t));
      PrimaryReads(num, s, i, k + 1, ExprOf(t));
      LowerRank(num, s, i, k + 1, ExprOf(t), 7, p);
    } else {
      ReadsBare(num, s, i, t);
      LowerRank(num, s, i, i + |Bare(t)|, ExprOf(t), Rank(t), p);
    }
  }

  lemma ShowParts(t: Tree, p: nat)
    ensures Show(t, p) == if Rank(t) < p then "(" + Bare(t) + ")" else Bare(t)
    ensures 1 <= Rank(t) <= 7
  {
    hide Bare;
  }

  lemma PrimaryReads(num: string -> real, s: string, i: nat, j: nat, x: W.Expr)
    requires AsPrimary(num, s, i, j, x)
    ensures Reads(num, s, i, j, x, 7)
  {
  }

  lemma ClosingEnds(s: string, k: nat)
    requires k < |s| && s[k] == ')'
    ensures Ends(s, k)
  {
  }

  lemma Closed(num: string -> real, s: string, i: nat, k: nat, x: W.Expr)
    requires k < |s| && s[k] == ')' && Reads(num, s, i, k, x, 1)
    ensures AsExpr(num, s, i, k, x, 1)
  {
    CharRead(s, k);
    hide TokAt;
    hide AsExpr;
    hide AsPrimary;
    hide Operand;
  }

  lemma ReadsBare(num: string -> real, s: string, i: nat, t: Tree)
    requires ReadsDecimals(num) && Sheeted(t) && TextAt(s, i, Bare(t)) && Ends(s, i + |Bare(t)|)
    ensures Reads(num, s, i, i + |Bare(t)|, ExprOf(t), Rank(t))
    decreases t, 0
  {
    hide *;
    BareParts(t);
    match t
    case Number(v) =>
      NumberPrimary(num, s, i, v);
      PrimaryReads(num, s, i, i + |Bare(t)|, ExprOf(t));
    case Cell(r, c) =>
      CellPrimary(num, s, i, r, c);
      PrimaryReads(num, s, i, i + |Bare(t)|, ExprOf(t));
    case Text(x) =>
      TextPrimary(num, s, i, x);
      PrimaryReads(num, s, i, i + |Bare(t)|, ExprOf(t));
    case Elsewhere(sheet, r, c) =>
      SheetPrimary(num, s, i, sheet, r, c);
      PrimaryReads(num, s, i, i + |Bare(t)|, ExprOf(t));
    case Infix(op, a, b) => ReadsInfix(num, s, i, op, a, b);
    case Negated(a) =>
      FirstPiece(s, i, '-', Show(a, 6));
      ReadsShown(num, s, i + 1, a, 6);
      MinusReads(num, s, i, i + |Bare(t)|, ExprOf(a));
    case Percented(a) =>
      var j := i + |Show(a, 7)|;
      LastPiece(s, i, Show(a, 7), '%');
      PercentEnds(s, j);
      ReadsShown(num, s, i, a, 7);
      PrimaryRead(num, s, i, j, ExprOf(a));
      PercentPrimary(num, s, i, j, ExprOf(a));
      PrimaryReads(num, s, i, j + 1, ExprOf(t));
  }

  lemma BareParts(t: Tree)
    ensures match t
      case Number(v) => Bare(t) == Decimal(v) && ExprOf(t) == W.Num(v as real) && Rank(t) == 7
      case Cell(r, c) => Bare(t) == A1Text(r, c) && ExprOf(t) == W.CellRef("", r, c) && Rank(t) == 7
      case Text(x) => Bare(t) == QuotedText(x) && ExprOf(t) == W.Str(x) && Rank(t) == 7
      case Elsewhere(sheet, r, c) =>
        && Bare(t) == SheetText(sheet, r, c) && ExprOf(t) == W.CellRef(sheet, r, c) && Rank(t) == 7
        && (Sheeted(t) ==> forall k :: 0 <= k < |sheet| ==> sheet[k] != '\'')
      case Infix(op, a, b) => Sheeted(t) ==> Sheeted(a) && Sheeted(b)
      case Negated(a) => (Sheeted(t) ==> Sheeted(a)) && Bare(t) == ['-'] + Show(a, 6) && ExprOf(t) ==
        W.Un(W.Negate, ExprOf(a)) && Rank(t) == 6
      case Percented(a) =>
        (Sheeted(t) ==> Sheeted(a)) && Bare(t) == Show(a, 7) + ['%'] && ExprOf(t) == W.Un(W.Percent, ExprOf(a))
          && Rank(t) == 7
  {
    hide Show;
    hide Decimal;
    hide A1Text;
  }

  lemma PercentEnds(s: string, k: nat)
    requires k < |s| && s[k] == '%'
    ensures Ends(s, k)
  {
  }

  lemma PrimaryRead(num: string -> real, s: string, i: nat, j: nat, x: W.Expr)
    requires Reads(num, s, i, j, x, 7)
    ensures AsPrimary(num, s, i, j, x)
  {
  }

  lemma MinusReads(num: string -> real, s: string, i: nat, j: nat, x: W.Expr)
    requires i < |s| && s[i] == '-' && Reads(num, s, i + 1, j, x, 6)
    ensures Reads(num, s, i, j, W.Un(W.Negate, x), 6)
  {
    CharRead(s, i);
    hide TokAt;
    hide Operand;
    hide AsExpr;
    hide AsPrimary;
    if !PercentAt(s, j) { MinusRead(num, s, i, j, x); }
  }

  lemma InfixParts(op: W.BinOp, a: Tree, b: Tree)
    ensures Bare(Infix(op, a, b)) == Show(a, LeftRank(op)) + (SignText(op) + Show(b, RightRank(op)))
    ensures ExprOf(Infix(op, a, b)) == W.Bin(op, ExprOf(a), ExprOf(b)) && Rank(Infix(op, a, b)) == Level(op)
    ensures 1 <= Level(op) <= LeftRank(op) <= 6 && 1 <= Level(op) <= 5 && 1 <= RightRank(op) <= 5
    ensures Limit(Level(op)) < RightRank(op) && Limit(Level(op)) <= Limit(RightRank(op))
    ensures LeftRank(op) <= 5 ==> Level(op) <= Limit(LeftRank(op))
  {
    hide Show;
    hide SignText;
  }

  lemma ReadsInfix(num: string -> real, s: string, i: nat, op: W.BinOp, a: Tree, b: Tree)
    requires ReadsDecimals(num) && Sheeted(a) && Sheeted(b)
    requires TextAt(s, i, Bare(Infix(op, a, b))) && Ends(s, i + |Bare(Infix(op, a, b))|)
    ensures Reads(num, s, i, i + |Bare(Infix(op, a, b))|, ExprOf(Infix(op, a, b)), Rank(Infix(op, a, b)))
    decreases Infix(op, a, b), -1
  {
    hide *;
    InfixParts(op, a, b);
    var (x, o, y) := (Show(a, LeftRank(op)), SignText(op), Show(b, RightRank(op)));
    var (j, k, e) := (i + |x|, i + |x| + |o|, i + |x| + |o| + |y|);
    InfixPieces(s, i, x, o, y);
    SignMeaning(op);
    ShownBegins(b, RightRank(op));
    BeginsThere(s, k, y);
    SignEnds(s, j, op);
    SignRead(s, j, op);
    ReadsShown(num, s, i, a, LeftRank(op));
    ReadsShown(num, s, k, b, RightRank(op));
    InfixReads(num, s, i, j, k, e, op, ExprOf(a), ExprOf(b));
  }

  lemma BeginsThere(s: string, k: nat, y: string)
    requires TextAt(s, k, y) && |y| > 0 && Begins(y, 0)
    ensures Begins(s, k)
  {
    TextChar(s, k, y, 0);
  }

  lemma SignEnds(s: string, j: nat, op: W.BinOp)
    requires TextAt(s, j, SignText(op)) && |SignText(op)| > 0 && IsEnding(SignText(op)[0])
    ensures Ends(s, j)
  {
    TextChar(s, j, SignText(op), 0);
    hide SignText;
  }

  lemma InfixReads(num: string -> real, s: string, i: nat, j: nat, k: nat, e: nat, op: W.BinOp, x: W.Expr, y: W.Expr)
    requires Reads(num, s, i, j, x, LeftRank(op)) && Reads(num, s, k, e, y, RightRank(op))
    requires TokAt(s, j) == State(SignTok(SignOf(op)), k, true)
    ensures Reads(num, s, i, e, W.Bin(op, x, y), Level(op))
  {
    hide TokAt;
    hide Operand;
    hide AsExpr;
    hide AsPrimary;
    hide SignOf;
    hide Prec;
    InfixParts(op, Number(0), Number(0));
    SignMeaning(op);
    hide Level;
    hide LeftRank;
    hide RightRank;
    hide Limit;
    if !PercentAt(s, e) && Binding(s, e) <= Limit(Level(op)) {
      forall m | 1 <= m <= Level(op) ensures AsExpr(num, s, i, e, W.Bin(op, x, y), m) {
        LeftReads(num, s, i, j, op, x, m);
        InfixExpr(num, s, i, j, k, e, op, x, y, m);
      }
    }
  }

  lemma LeftReads(num: string -> real, s: string, i: nat, j: nat, op: W.BinOp, x: W.Expr, m: nat)
    requires Reads(num, s, i, j, x, LeftRank(op)) && j <= |s| && TokAt(s, j).cur == SignTok(SignOf(op))
    requires 1 <= m <= Level(op)
    ensures AsExpr(num, s, i, j, x, m)
  {
    hide TokAt;
    hide Operand;
    hide AsExpr;
    hide AsPrimary;
    hide SignOf;
    hide Prec;
    SignMeaning(op);
    InfixParts(op, Number(0), Number(0));
    if LeftRank(op) == 6 { UnaryIsExpr(num, s, i, j, x, m); }
  }

  /** A formula written with the fewest parentheses is parsed as the tree that it was written from. */
  lemma ShownRoundTrip(num: string -> real, t: Tree)
    requires ReadsDecimals(num) && Sheeted(t)
    ensures ParsedFormula(num, Show(t, 1)) == Some(ExprOf(t))
  {
    hide *;
    var s := Show(t, 1);
    WholeText(s);
    TextEnds(s);
    ReadsShown(num, s, 0, t, 1);
    EndOfText(s);
    WholeExpr(num, s, ExprOf(t));
    ShownBegins(t, 1);
    FormulaIs(num, s, ExprOf(t));
  }

  lemma TextEnds(s: string)
    ensures Ends(s, |s|)
  {
  }

  lemma WholeExpr(num: string -> real, s: string, x: W.Expr)
    requires Reads(num, s, 0, |s|, x, 1) && TokAt(s, |s|) == State(End, |s|, true)
    ensures ParseExpr(num, s, TokAt(s, 0), 1) == (x, State(End, |s|, true))
  {
    hide TokAt;
    hide Operand;
    hide AsPrimary;
    assert AsExpr(num, s, 0, |s|, x, 1);
    RestStops(num, s, State(End, |s|, true), x, 1);
    hide ParseRest;
    hide ParseExpr;
  }

  // ----- blanks and numbers -----

  /** A blank before a token does not matter. */
  lemma BlankSkipped(s: string, i: nat)
    requires i < |s| && s[i] in {' ', '\t', '\n'}
    ensures NextTok(s, i) == NextTok(s, i + 1)
  {
    assert Skip(s, i) == Skip(s, i + 1);
    hide Skip;
    hide WordTok;
    hide QuotedRef;
    hide SignAt;
    hide StringFrom;
    hide NumberEnd;
  }

  /** Digits and points are read up to the exponent, and that with its sign up to its last digit. */
  lemma ExponentRead(s: string, i: nat, m: nat, x: nat, e: nat)
    requires i < m < |s| && IsDigit(s[i]) && (forall k :: i <= k < m ==> IsDigit(s[k]) || s[k] == '.')
    requires s[m] in {'e', 'E'} && (x == m + 1 || (x == m + 2 <= |s| && s[m + 1] in {'+', '-'}))
    requires x < e <= |s| && (forall k :: x <= k < e ==> IsDigit(s[k])) && (e < |s| ==> !IsDigit(s[e]))
    ensures NextTok(s, i) == (NumTok(s[i..e]), e)
  {
    RunIs(s, i, m, IsNumChar);
    RunIs(s, x, e, IsDigit);
    assert Skip(s, i) == i;
    hide Skip;
    assert NumberEnd(s, i) == e;
    hide NumberEnd;
  }

  // ----- names -----

  function NameOf(fn: W.Fn): string {
    match fn
    case SUM => "SUM"
    case AVERAGE => "AVERAGE"
    case MIN => "MIN"
    case MAX => "MAX"
    case PRODUCT => "PRODUCT"
    case SUMSQ => "SUMSQ"
    case ABS => "ABS"
    case SQRT => "SQRT"
    case EXP => "EXP"
    case LN => "LN"
    case LOG => "LOG"
    case LOG10 => "LOG10"
    case SIN => "SIN"
    case COS => "COS"
    case TAN => "TAN"
    case DEGREES => "DEGREES"
    case RADIANS => "RADIANS"
    case POWER => "POWER"
    case PI => "PI"
    case IF => "IF"
    case IFERROR => "IFERROR"
    case OTHER(name) => name
  }

  lemma NameFound(name: string)
    ensures NameOf(FnOf(name)) == name
  {
  }

  lemma AggregateFound(fn: W.Fn)
    requires fn in {W.SUM, W.AVERAGE, W.MIN, W.MAX, W.PRODUCT, W.SUMSQ, W.PI, W.POWER, W.IF, W.IFERROR}
    ensures FnOf(NameOf(fn)) == fn
  {
  }

  lemma SingleFound(fn: W.Fn)
    requires fn in {W.ABS, W.SQRT, W.EXP, W.LN, W.LOG, W.LOG10, W.SIN, W.COS, W.TAN, W.DEGREES, W.RADIANS}
    ensures FnOf(NameOf(fn)) == fn
  {
  }

  /** A name is read as the function that is called so, and as no other that is known. */
  lemma NamesRead(name: string, fn: W.Fn)
    requires !fn.OTHER?
    ensures FnOf(name) == fn <==> name == NameOf(fn)
  {
    hide FnOf;
    hide NameOf;
    NameFound(name);
    if fn in {W.SUM, W.AVERAGE, W.MIN, W.MAX, W.PRODUCT, W.SUMSQ, W.PI, W.POWER, W.IF, W.IFERROR} {
      AggregateFound(fn);
    } else {
      SingleFound(fn);
    }
  }
}
