/** Cell addresses: letters for the column, digits for the row. */
module Addresses {
  import opened Options

  // ----- letters -----

  function Letter(d: nat): char
    requires d < 26
  {
    (d + 'A' as int) as char
  }

  predicate IsLetter(ch: char) { 'A' <= ch <= 'Z' || 'a' <= ch <= 'z' }

  predicate IsDigit(ch: char) { '0' <= ch <= '9' }

  /** 1 to 26, the case of the letter aside. */
  function LetterValue(ch: char): (v: nat)
    requires IsLetter(ch)
    ensures 1 <= v <= 26
  {
    if 'a' <= ch <= 'z' then ch as int - 'a' as int + 1 else ch as int - 'A' as int + 1
  }

  /** Bijective base 26: A is 1, Z is 26, AA is 27. */
  function Letters(n: nat): string {
    if n == 0 then "" else Letters((n - 1) / 26) + [Letter((n - 1) % 26)]
  }

  predicate AllLetters(s: string) { forall i :: 0 <= i < |s| ==> IsLetter(s[i]) }

  predicate AllDigits(s: string) { forall i :: 0 <= i < |s| ==> IsDigit(s[i]) }

  function LettersValue(s: string): nat
    requires AllLetters(s)
  {
    if s == "" then 0 else LettersValue(s[..|s| - 1]) * 26 + LetterValue(s[|s| - 1])
  }

  lemma LettersSnoc(s: string, ch: char)
    requires AllLetters(s) && IsLetter(ch)
    ensures AllLetters(s + [ch]) && LettersValue(s + [ch]) == LettersValue(s) * 26 + LetterValue(ch)
  {
    assert (s + [ch])[..|s|] == s;
  }

  lemma {:induction false} LettersRoundTrip(n: nat)
    ensures AllLetters(Letters(n)) && LettersValue(Letters(n)) == n && (n > 0 ==> |Letters(n)| > 0)
  {
    if n > 0 {
      LettersRoundTrip((n - 1) / 26);
      LettersSnoc(Letters((n - 1) / 26), Letter((n - 1) % 26));
    }
  }

  method ColName(col: nat) returns (s: string)
    ensures s == Letters(col + 1)
  {
    s := "";
    var c: nat := col + 1;
    while c > 0
      invariant Letters(c) + s == Letters(col + 1)
    {
      var r := (c - 1) % 26;
      assert Letters(c) + s == Letters((c - 1) / 26) + ([Letter(r)] + s);
      s := [Letter(r)] + s;
      c := (c - 1) / 26;
    }
  }

  // ----- digits -----

  function Digit(d: nat): char
    requires d < 10
  {
    (d + '0' as int) as char
  }

  function Decimal(n: nat): string {
    if n < 10 then [Digit(n)] else Decimal(n / 10) + [Digit(n % 10)]
  }

  function DecimalValue(s: string): nat
    requires AllDigits(s)
  {
    if s == "" then 0 else DecimalValue(s[..|s| - 1]) * 10 + (s[|s| - 1] as int - '0' as int)
  }

  lemma {:induction false} DecimalRoundTrip(n: nat)
    ensures |Decimal(n)| > 0 && AllDigits(Decimal(n)) && DecimalValue(Decimal(n)) == n
  {
    var s := Decimal(n);
    if n < 10 {
      assert s[..|s| - 1] == "";
    } else {
      DecimalRoundTrip(n / 10);
      assert s[..|s| - 1] == Decimal(n / 10);
    }
  }

  // ----- runs -----

  /** The end of the run of letters that starts at i. */
  function LetterRun(s: string, i: nat): (e: nat)
    requires i <= |s|
    ensures i <= e <= |s| && AllLetters(s[i..e]) && (e < |s| ==> !IsLetter(s[e]))
    decreases |s| - i
  {
    if i < |s| && IsLetter(s[i]) then
      var e := LetterRun(s, i + 1);
      assert s[i..e] == [s[i]] + s[i + 1..e];
      e
    else i
  }

  function DigitRun(s: string, i: nat): (e: nat)
    requires i <= |s|
    ensures i <= e <= |s| && AllDigits(s[i..e]) && (e < |s| ==> !IsDigit(s[e]))
    decreases |s| - i
  {
    if i < |s| && IsDigit(s[i]) then
      var e := DigitRun(s, i + 1);
      assert s[i..e] == [s[i]] + s[i + 1..e];
      e
    else i
  }

  lemma {:induction false} LetterRunIs(s: string, i: nat, e: nat)
    requires i <= e <= |s| && AllLetters(s[i..e]) && (e < |s| ==> !IsLetter(s[e]))
    ensures LetterRun(s, i) == e
    decreases e - i
  {
    if i < e {
      assert s[i..e][0] == s[i];
      assert s[i + 1..e] == s[i..e][1..];
      LetterRunIs(s, i + 1, e);
    }
  }

  lemma {:induction false} DigitRunIs(s: string, i: nat, e: nat)
    requires i <= e <= |s| && AllDigits(s[i..e]) && (e < |s| ==> !IsDigit(s[e]))
    ensures DigitRun(s, i) == e
    decreases e - i
  {
    if i < e {
      assert s[i..e][0] == s[i];
      assert s[i + 1..e] == s[i..e][1..];
      DigitRunIs(s, i + 1, e);
    }
  }

  /** The column number, from the letters in front; -1 when there are none. */
  method ColIndex(s: string) returns (c: int)
    ensures c == LettersValue(s[..LetterRun(s, 0)]) - 1
  {
    c := 0;
    var i := 0;
    while i < |s| && IsLetter(s[i])
      invariant 0 <= i <= |s| && LetterRun(s, i) == LetterRun(s, 0)
      invariant AllLetters(s[..i]) && c == LettersValue(s[..i])
    {
      assert s[..i + 1][..i] == s[..i];
      c := c * 26 + LetterValue(s[i]);
      i := i + 1;
    }
    c := c - 1;
  }

  // ----- addresses -----

  datatype Address = Address(row: int, col: int, absRow: bool, absCol: bool)

  predicate At(s: string, i: nat, ch: char) { i < |s| && s[i] == ch }

  /** The address that a string begins with, with the dollar signs of absolute references, and
      where it ends. */
  function AddressPrefix(s: string): Option<(Address, nat)> {
    var i := if At(s, 0, '$') then 1 else 0;
    var j := LetterRun(s, i);
    var k := if At(s, j, '$') then j + 1 else j;
    var e := DigitRun(s, k);
    if i == j || k == e then None
    else Some((Address(DecimalValue(s[k..e]) - 1, LettersValue(s[i..j]) - 1, k != j, i != 0), e))
  }

  /** A whole string read as an address. */
  function ParsedAddress(s: string): Option<Address> {
    match AddressPrefix(s)
    case None => None
    case Some((a, e)) => if e == |s| then Some(a) else None
  }

  /** Decimal digits read from the left. */
  method ReadDecimal(s: string) returns (n: nat)
    requires AllDigits(s)
    ensures n == DecimalValue(s)
  {
    n := 0;
    var i := 0;
    while i < |s|
      invariant 0 <= i <= |s| && AllDigits(s[..i]) && n == DecimalValue(s[..i])
    {
      assert s[..i + 1][..i] == s[..i];
      n := n * 10 + (s[i] as int - '0' as int);
      i := i + 1;
    }
    assert s[..i] == s;
  }

  method TakeLetters(s: string, start: nat) returns (letters: string, i: nat)
    requires start <= |s|
    ensures i == LetterRun(s, start) && letters == s[start..i]
  {
    i, letters := start, "";
    while i < |s| && IsLetter(s[i])
      invariant start <= i <= |s| && LetterRun(s, i) == LetterRun(s, start) && letters == s[start..i]
    {
      letters := letters + [s[i]];
      i := i + 1;
    }
  }

  method TakeDigits(s: string, start: nat) returns (digits: string, i: nat)
    requires start <= |s|
    ensures i == DigitRun(s, start) && digits == s[start..i]
  {
    i, digits := start, "";
    while i < |s| && IsDigit(s[i])
      invariant start <= i <= |s| && DigitRun(s, i) == DigitRun(s, start) && digits == s[start..i]
    {
      digits := digits + [s[i]];
      i := i + 1;
    }
  }

  method ParseA1(s: string) returns (r: Option<Address>)
    ensures r == ParsedAddress(s)
  {
    hide LetterRun;
    hide DigitRun;
    hide LettersValue;
    hide DecimalValue;
    var i, absCol, absRow := 0, false, false;
    if i < |s| && s[i] == '$' {
      absCol := true;
      i := i + 1;
    }
    var letters, j := TakeLetters(s, i);
    if |letters| == 0 {
      return None;
    }
    var k := j;
    if k < |s| && s[k] == '$' {
      absRow := true;
      k := k + 1;
    }
    var digits, e := TakeDigits(s, k);
    if |digits| == 0 {
      return None;
    }
    LetterRunIs(letters, 0, |letters|);
    assert letters[..|letters|] == letters;
    var col := ColIndex(letters);
    var row: int := ReadDecimal(digits);
    r := if e == |s| then Some(Address(row - 1, col, absRow, absCol)) else None;
  }

  function Dollar(absolute: bool): string { if absolute then "$" else "" }

  function AddressText(row: nat, col: nat, absRow: bool, absCol: bool): string {
    Dollar(absCol) + Letters(col + 1) + Dollar(absRow) + Decimal(row + 1)
  }

  /** The relative form, A1. */
  function A1Text(row: nat, col: nat): string { Letters(col + 1) + Decimal(row + 1) }

  method A1(row: nat, col: nat) returns (s: string)
    ensures s == A1Text(row, col)
  {
    var name := ColName(col);
    s := name + Decimal(row + 1);
  }

  /** A string cut at i, j and k as ParsedAddress cuts it. */
  lemma ParsedPieces(s: string, i: nat, j: nat, k: nat)
    requires i == (if At(s, 0, '$') then 1 else 0) && i < j < |s| && k == (if At(s, j, '$') then j + 1 else j)
    requires k < |s|
    requires AllLetters(s[i..j]) && !IsLetter(s[j]) && AllDigits(s[k..|s|])
    ensures ParsedAddress(s) == Some(Address(DecimalValue(s[k..|s|]) - 1, LettersValue(s[i..j]) - 1, k != j, i != 0))
  {
    hide LetterRun;
    hide DigitRun;
    hide LettersValue;
    hide DecimalValue;
    hide AllLetters;
    hide AllDigits;
    LetterRunIs(s, i, j);
    DigitRunIs(s, k, |s|);
  }

  lemma FourPieces(p: string, ls: string, q: string, ds: string)
    requires |ls| > 0 && |ds| > 0
    ensures var s, i, j, k := p + ls + q + ds, |p|, |p| + |ls|, |p| + |ls| + |q|;
      && s[i..j] == ls && s[k..|s|] == ds && s[i] == ls[0] && s[k] == ds[0]
      && (i > 0 ==> s[0] == p[0]) && (k > j ==> s[j] == q[0])
  {
  }

  lemma ParsedParts(absCol: bool, ls: string, absRow: bool, ds: string)
    requires |ls| > 0 && AllLetters(ls) && |ds| > 0 && AllDigits(ds)
    ensures ParsedAddress(Dollar(absCol) + ls + Dollar(absRow) + ds)
         == Some(Address(DecimalValue(ds) - 1, LettersValue(ls) - 1, absRow, absCol))
  {
    hide ParsedAddress;
    hide LettersValue;
    hide DecimalValue;
    var p, q := Dollar(absCol), Dollar(absRow);
    FourPieces(p, ls, q, ds);
    ParsedPieces(p + ls + q + ds, |p|, |p| + |ls|, |p| + |ls| + |q|);
  }

  /** ls and ds are the letters and digits of the text s of the address a. */
  ghost predicate Spells(s: string, a: Address, ls: string, ds: string) {
    && |ls| > 0 && AllLetters(ls) && |ds| > 0 && AllDigits(ds)
    && s == Dollar(a.absCol) + ls + Dollar(a.absRow) + ds
    && a.col == LettersValue(ls) - 1 && a.row == DecimalValue(ds) - 1
  }

  lemma ParsedSpells(s: string) returns (ls: string, ds: string)
    requires ParsedAddress(s).Some?
    ensures Spells(s, ParsedAddress(s).value, ls, ds)
  {
    hide LettersValue;
    hide DecimalValue;
    var i := if At(s, 0, '$') then 1 else 0;
    var j := LetterRun(s, i);
    var k := if At(s, j, '$') then j + 1 else j;
    ls, ds := s[i..j], s[k..];
    hide LetterRun;
    hide DigitRun;
    hide AllLetters;
    hide AllDigits;
    assert s[k..|s|] == s[k..];
    assert s[..i] == Dollar(i != 0) && s[j..k] == Dollar(k != j);
    assert s == s[..i] + s[i..j] + s[j..k] + s[k..];
  }

  /** A text is read as an address exactly when letters and then digits spell it, each with a dollar sign in
      front or none, and nothing else. */
  lemma AddressExactly(s: string, a: Address)
    ensures ParsedAddress(s) == Some(a) <==> exists ls, ds :: Spells(s, a, ls, ds)
  {
    hide ParsedAddress;
    if ParsedAddress(s) == Some(a) { var ls, ds := ParsedSpells(s); }
    if ls, ds :| Spells(s, a, ls, ds) { ParsedParts(a.absCol, ls, a.absRow, ds); }
  }

  /** Every address in range is read back from its text, absolute markers included. */
  lemma AddressRoundTrip(row: nat, col: nat, absRow: bool, absCol: bool)
    ensures ParsedAddress(AddressText(row, col, absRow, absCol)) == Some(Address(row, col, absRow, absCol))
  {
    LettersRoundTrip(col + 1);
    DecimalRoundTrip(row + 1);
    ParsedParts(absCol, Letters(col + 1), absRow, Decimal(row + 1));
  }

  lemma A1RoundTrip(row: nat, col: nat)
    ensures ParsedAddress(A1Text(row, col)) == Some(Address(row, col, false, false))
  {
    AddressRoundTrip(row, col, false, false);
    assert AddressText(row, col, false, false) == A1Text(row, col);
  }

  /** Columns A to Z are the single letters in their order, AA follows, and either case reads the same. */
  lemma ColumnOrder(d: nat)
    requires d < 26
    ensures Letters(d + 1) == [('A' as int + d) as char] && Letters(27) == "AA"
    ensures LetterValue(('A' as int + d) as char) == LetterValue(('a' as int + d) as char) == d + 1
  {
    assert Letters(0) == "" && d / 26 == 0 && d % 26 == d;
    assert Letters(1) == [Letter(0)] && Letters(27) == Letters(1) + [Letter(0)];
  }

  /** Digits in their order, and rows from one. */
  lemma RowOrder(d: nat)
    requires d < 10
    ensures Decimal(d) == [('0' as int + d) as char] && Decimal(10) == "10" && A1Text(0, 0) == "A1"
  {
    ColumnOrder(0);
    assert Decimal(1) == "1" && Decimal(0) == "0";
  }
}

/** Workbooks: sheets by name, cells by position, named cells, parsed formulas. */
module Workbooks {
  import opened Options
  import opened Sequences
  import opened Addresses

  datatype CellId = CellId(sheet: int, row: int, col: int)

  datatype UnOp = Negate | Percent | Keep

  datatype BinOp = Plus | Minus | Times | Over | Power | Equal | NotEqual | Less | Greater | AtMost | AtLeast | OtherOp

  datatype Fn =
    | SUM | AVERAGE | MIN | MAX | PRODUCT | SUMSQ
    | ABS | SQRT | EXP | LN | LOG | LOG10 | SIN | COS | TAN | DEGREES | RADIANS
    | POWER | PI | IF | IFERROR
    | OTHER(name: string)

  /** An empty sheet name stands for the sheet of the formula itself. */
  datatype Expr =
    | Num(num: real)
    | Str(text: string)
    | CellRef(sheet: string, row: int, col: int)
    | RangeRef(sheet: string, row: int, col: int, endRow: int, endCol: int)
    | NameRef(name: string)
    | Un(op: UnOp, arg: Expr)
    | Bin(bop: BinOp, left: Expr, right: Expr)
    | Call(fn: Fn, args: seq<Expr>)

  datatype Formula = NoFormula | Parsed(ast: Expr) | Unparsable

  datatype Cell = Cell(hasValue: bool, value: real, text: string, formula: Formula)

  /** The sheets' cell maps as one map; a name's target may leave its sheet open with -1. */
  datatype Book = Book(sheets: seq<string>, cells: map<CellId, Cell>, names: map<string, CellId>)

  predicate IsInput(c: Cell) { c.formula == NoFormula && c.hasValue && |c.text| == 0 }

  predicate IsFormula(c: Cell) { c.formula.Parsed? }

  function FormulasOf(book: Book): map<CellId, Expr> {
    map id | id in book.cells && IsFormula(book.cells[id]) :: book.cells[id].formula.ast
  }

  function InputsOf(book: Book): map<CellId, real> {
    map id | id in book.cells && IsInput(book.cells[id]) :: book.cells[id].value
  }

  // ----- sheets and names -----

  /** The first sheet from i on with this name, -1 when there is none. */
  function SheetFrom(sheets: seq<string>, name: string, i: nat): (r: int)
    requires i <= |sheets|
    ensures r == -1 || (i <= r < |sheets| && sheets[r] == name)
    decreases |sheets| - i
  {
    if i == |sheets| then -1 else if sheets[i] == name then i else SheetFrom(sheets, name, i + 1)
  }

  method SheetIndex(book: Book, name: string) returns (r: int)
    ensures r == SheetFrom(book.sheets, name, 0)
  {
    var i := 0;
    while i < |book.sheets|
      invariant 0 <= i <= |book.sheets| && SheetFrom(book.sheets, name, 0) == SheetFrom(book.sheets, name, i)
    {
      if book.sheets[i] == name {
        return i;
      }
      i := i + 1;
    }
    return -1;
  }

  /** A reference's sheet: the formula's own when none is written or the name is unknown. */
  function SheetOf(book: Book, sheet: string, cur: int): int {
    var i := if |sheet| == 0 then -1 else SheetFrom(book.sheets, sheet, 0);
    if i < 0 then cur else i
  }

  function Smaller(a: int, b: int): int { if b < a then b else a }

  function Larger(a: int, b: int): int { if a < b then b else a }

  function RowIds(sheet: int, row: int, c0: int, c1: int): seq<CellId>
    decreases c1 - c0
  {
    if c0 > c1 then [] else RowIds(sheet, row, c0, c1 - 1) + [CellId(sheet, row, c1)]
  }

  function BlockIds(sheet: int, r0: int, r1: int, c0: int, c1: int): seq<CellId>
    decreases r1 - r0
  {
    if r0 > r1 then [] else BlockIds(sheet, r0, r1 - 1, c0, c1) + RowIds(sheet, r1, c0, c1)
  }

  /** A range's cells, row by row, whichever corner is written first. */
  function RangeIds(book: Book, e: Expr, cur: int): seq<CellId>
    requires e.RangeRef?
  {
    BlockIds(SheetOf(book, e.sheet, cur), Smaller(e.row, e.endRow), Larger(e.row, e.endRow),
             Smaller(e.col, e.endCol), Larger(e.col, e.endCol))
  }

  lemma {:induction false} BlockStarts(sheet: int, r0: int, r1: int, c0: int, c1: int)
    requires r0 <= r1 && c0 <= c1
    ensures var ids := BlockIds(sheet, r0, r1, c0, c1); |ids| > 0 && ids[0] == CellId(sheet, r0, c0)
    decreases r1 - r0
  {
    if r0 < r1 { BlockStarts(sheet, r0, r1 - 1, c0, c1); } else { RowStarts(sheet, r0, c0, c1); }
  }

  lemma {:induction false} RowStarts(sheet: int, row: int, c0: int, c1: int)
    requires c0 <= c1
    ensures var ids := RowIds(sheet, row, c0, c1); |ids| > 0 && ids[0] == CellId(sheet, row, c0)
    decreases c1 - c0
  {
    if c0 < c1 { RowStarts(sheet, row, c0, c1 - 1); }
  }

  /** Where a range's cell stands: rows first, from the smaller corner on. */
  lemma RangeAt(book: Book, e: Expr, cur: int, row: int, col: int)
    requires e.RangeRef?
    requires Smaller(e.row, e.endRow) <= row <= Larger(e.row, e.endRow)
    requires Smaller(e.col, e.endCol) <= col <= Larger(e.col, e.endCol)
    ensures var width := Larger(e.col, e.endCol) - Smaller(e.col, e.endCol) + 1;
      var at := (row - Smaller(e.row, e.endRow)) * width + col - Smaller(e.col, e.endCol);
      && |RangeIds(book, e, cur)| == (Larger(e.row, e.endRow) - Smaller(e.row, e.endRow) + 1) * width
      && 0 <= at < |RangeIds(book, e, cur)|
      && RangeIds(book, e, cur)[at] == CellId(SheetOf(book, e.sheet, cur), row, col)
  {
    BlockAt(SheetOf(book, e.sheet, cur), Smaller(e.row, e.endRow), Larger(e.row, e.endRow),
            Smaller(e.col, e.endCol), Larger(e.col, e.endCol), row, col);
  }

  lemma {:induction false} RowAt(sheet: int, row: int, c0: int, c1: int, col: int)
    requires c0 <= col <= c1
    ensures var ids := RowIds(sheet, row, c0, c1);
      |ids| == c1 - c0 + 1 && ids[col - c0] == CellId(sheet, row, col)
    decreases c1 - c0
  {
    if c0 < c1 { RowAt(sheet, row, c0, c1 - 1, if col < c1 then col else c0); }
  }

  lemma {:induction false} BlockAt(sheet: int, r0: int, r1: int, c0: int, c1: int, row: int, col: int)
    requires r0 <= row <= r1 && c0 <= col <= c1
    ensures var ids := BlockIds(sheet, r0, r1, c0, c1); var at := (row - r0) * (c1 - c0 + 1) + col - c0;
      && |ids| == (r1 - r0 + 1) * (c1 - c0 + 1) && 0 <= at < |ids| && ids[at] == CellId(sheet, row, col)
    decreases r1 - r0
  {
    hide RowIds;
    RowAt(sheet, r1, c0, c1, col);
    if r0 < r1 {
      BlockAt(sheet, r0, r1 - 1, c0, c1, if row < r1 then row else r0, col);
    }
    PlaceWithin(row - r0, r1 - r0, col - c0, c1 - c0 + 1);
    if r0 < r1 && row < r1 { PlaceWithin(row - r0, r1 - 1 - r0, col - c0, c1 - c0 + 1); }
  }

  lemma PlaceWithin(r: int, last: int, c: int, width: int)
    requires 0 <= r <= last && 0 <= c < width
    ensures 0 <= r * width + c < (last + 1) * width && (last + 1) * width == last * width + width
  {
    if r < last { assert r * width <= (last - 1) * width; }
  }

  /** A written sheet name stands for the sheet of that name, if there is one. */
  lemma SheetMeaning(book: Book, name: string, cur: int, i: nat)
    requires ValidBook(book) && i < |book.sheets| && |book.sheets[i]| > 0
    ensures SheetOf(book, book.sheets[i], cur) == i && SheetOf(book, "", cur) == cur
    ensures name !in book.sheets ==> SheetOf(book, name, cur) == cur
  {
    FirstSheetFrom(book.sheets, book.sheets[i], i, 0);
  }

  lemma {:induction false} FirstSheetFrom(sheets: seq<string>, name: string, i: nat, j: nat)
    requires j <= i < |sheets| && sheets[i] == name && forall k :: j <= k < i ==> sheets[k] != name
    ensures SheetFrom(sheets, name, j) == i
    decreases i - j
  {
    if j < i { FirstSheetFrom(sheets, name, i, j + 1); }
  }

  method CollectRow(sheet: int, row: int, c0: int, c1: int) returns (ids: seq<CellId>)
    requires c0 <= c1
    ensures ids == RowIds(sheet, row, c0, c1)
  {
    ids := [];
    var c := c0;
    while c <= c1
      invariant c0 <= c <= c1 + 1 && ids == RowIds(sheet, row, c0, c - 1)
    {
      ids := ids + [CellId(sheet, row, c)];
      c := c + 1;
    }
  }

  method CollectBlock(sheet: int, r0: int, r1: int, c0: int, c1: int) returns (ids: seq<CellId>)
    requires r0 <= r1 && c0 <= c1
    ensures ids == BlockIds(sheet, r0, r1, c0, c1)
  {
    hide RowIds;
    ids := [];
    var r := r0;
    while r <= r1
      invariant r0 <= r <= r1 + 1 && ids == BlockIds(sheet, r0, r - 1, c0, c1)
    {
      var cells := CollectRow(sheet, r, c0, c1);
      ids := ids + cells;
      r := r + 1;
    }
  }

  method CollectRange(book: Book, e: Expr, cur: int) returns (ids: seq<CellId>)
    requires e.RangeRef?
    ensures ids == RangeIds(book, e, cur) && |ids| > 0
  {
    hide BlockIds;
    hide SheetFrom;
    var found := SheetIndex(book, e.sheet);
    var sh := if |e.sheet| == 0 || found < 0 then cur else found;
    var r0, r1 := Smaller(e.row, e.endRow), Larger(e.row, e.endRow);
    var c0, c1 := Smaller(e.col, e.endCol), Larger(e.col, e.endCol);
    ids := CollectBlock(sh, r0, r1, c0, c1);
    BlockStarts(sh, r0, r1, c0, c1);
  }

  // ----- keys -----

  /** Sheet names differ, stored cells and names point into the book's sheets. */
  predicate ValidBook(book: Book) {
    && (forall i, j :: 0 <= i < j < |book.sheets| ==> book.sheets[i] != book.sheets[j])
    && (forall id :: id in book.cells ==> 0 <= id.sheet < |book.sheets| && id.row >= 0 && id.col >= 0)
    && (forall nm :: nm in book.names ==> book.names[nm].sheet < |book.sheets|)
  }

  predicate OnSheet(book: Book, id: CellId) {
    0 <= id.sheet < |book.sheets| && id.row >= 0 && id.col >= 0
  }

  function Key(book: Book, id: CellId): string
    requires OnSheet(book, id)
  {
    book.sheets[id.sheet] + "!" + A1Text(id.row, id.col)
  }

  predicate NoMark(s: string) { forall i :: 0 <= i < |s| ==> s[i] != '!' }

  lemma A1NoMark(row: nat, col: nat)
    ensures NoMark(A1Text(row, col))
  {
    LettersRoundTrip(col + 1);
    DecimalRoundTrip(row + 1);
  }

  lemma LastMark(a: string, s: string, b: string, t: string)
    requires NoMark(s) && NoMark(t) && a + "!" + s == b + "!" + t
    ensures a == b && s == t
  {
    var whole := a + "!" + s;
    assert whole == b + "!" + t;
    assert whole[|a|] == '!' && whole[|b|] == '!';
    assert a == whole[..|a|] && b == whole[..|b|];
    assert s == whole[|a| + 1..] && t == whole[|b| + 1..];
  }

  /** Two cells never share a key, so inputs keyed by text are told apart. */
  lemma KeyInjective(book: Book, a: CellId, b: CellId)
    requires ValidBook(book) && OnSheet(book, a) && OnSheet(book, b) && Key(book, a) == Key(book, b)
    ensures a == b
  {
    A1NoMark(a.row, a.col);
    A1NoMark(b.row, b.col);
    LastMark(book.sheets[a.sheet], A1Text(a.row, a.col), book.sheets[b.sheet], A1Text(b.row, b.col));
    A1RoundTrip(a.row, a.col);
    A1RoundTrip(b.row, b.col);
  }
}
