/** Tokens of a formula. */
module Lexer {
  import opened Options
  import opened Addresses

  /** An operator sign of one character, or of two. */
  datatype Sign = One(c: char) | Two(c: char, d: char)

  datatype Tok =
    | NumTok(text: string)
    | StrTok(text: string)
    | IdentTok(name: string)
    | RefTok(text: string)
    | SignTok(sign: Sign)
    | Open
    | Close
    | Comma
    | End

  predicate IsBlank(c: char) { c == ' ' || c == '\t' || c == '\n' }

  predicate IsAlnum(c: char) { IsLetter(c) || IsDigit(c) }

  predicate IsWord(c: char) { IsAlnum(c) || c == '$' || c == '_' || c == '.' }

  predicate IsRefChar(c: char) { IsAlnum(c) || c == '$' }

  predicate IsRangeChar(c: char) { IsRefChar(c) || c == ':' }

  predicate IsNumChar(c: char) { IsDigit(c) || c == '.' }

  predicate NotQuote(c: char) { c != '\'' }

  /** The end of the longest run of characters in p that starts at i. */
  function Run(s: string, i: nat, p: char -> bool): (e: nat)
    requires i <= |s|
    ensures i <= e <= |s| && (forall k :: i <= k < e ==> p(s[k])) && (e < |s| ==> !p(s[e]))
    decreases |s| - i
  {
    if i < |s| && p(s[i]) then Run(s, i + 1, p) else i
  }

  lemma {:induction false} RunIs(s: string, i: nat, e: nat, p: char -> bool)
    requires i <= e <= |s| && (forall k :: i <= k < e ==> p(s[k])) && (e < |s| ==> !p(s[e]))
    ensures Run(s, i, p) == e
    decreases e - i
  {
    if i < e { RunIs(s, i + 1, e, p); }
  }

  function Skip(s: string, i: nat): (e: nat)
    requires i <= |s|
    ensures i <= e <= |s|
  {
    Run(s, i, IsBlank)
  }

  /** The text of a string literal after its opening quote; a doubled quote stands for one. */
  function StringFrom(s: string, i: nat): (r: (string, nat))
    requires i <= |s|
    ensures i <= r.1 <= |s|
    decreases |s| - i
  {
    if i == |s| then ("", i)
    else if s[i] != '"' then var r := StringFrom(s, i + 1); ([s[i]] + r.0, r.1)
    else if At(s, i + 1, '"') then var r := StringFrom(s, i + 2); (['"'] + r.0, r.1)
    else ("", i + 1)
  }

  /** Digits and points, then an exponent. */
  function NumberEnd(s: string, i: nat): (e: nat)
    requires i <= |s|
    ensures i <= e <= |s|
  {
    var m := Run(s, i, IsNumChar);
    if At(s, m, 'e') || At(s, m, 'E') then
      var x := if At(s, m + 1, '+') || At(s, m + 1, '-') then m + 2 else m + 1;
      Run(s, x, IsDigit)
    else m
  }

  /** A quoted sheet name, and the reference after its exclamation mark. */
  function QuotedRef(s: string, i: nat): (r: (string, nat))
    requires i < |s|
    ensures i < r.1 <= |s|
  {
    var m := Run(s, i + 1, NotQuote);
    var name := ['\''] + s[i + 1..m] + ['\''];
    var k := if m < |s| then m + 1 else m;
    if At(s, k, '!') then
      var e := Run(s, k + 1, IsRangeChar);
      (name + s[k..e], e)
    else (name, k)
  }

  function LooksRef(w: string): bool {
    var a := if At(w, 0, '$') then 1 else 0;
    var b := Run(w, a, IsLetter);
    var c := if At(w, b, '$') then b + 1 else b;
    var d := Run(w, c, IsDigit);
    a < b && c < d && d == |w|
  }

  predicate RefStart(s: string, i: nat) { i < |s| && (s[i] == '$' || IsLetter(s[i])) }

  /** A word is a reference with a sheet, a range, a function before a parenthesis, a cell or a name. */
  function WordTok(s: string, i: nat): (r: (Tok, nat))
    requires i < |s| && (IsLetter(s[i]) || s[i] == '$' || s[i] == '_')
    ensures i < r.1 <= |s| && r.0 != End
  {
    var m := Run(s, i, IsWord);
    var word := s[i..m];
    if At(s, m, '!') then var e := Run(s, m + 1, IsRangeChar); (RefTok(s[i..e]), e)
    else if LooksRef(word) && At(s, m, ':') && RefStart(s, m + 1) then
      var e := Run(s, m + 1, IsRefChar);
      (RefTok(s[i..e]), e)
    else if At(s, Skip(s, m), '(') then (IdentTok(word), Skip(s, m))
    else if LooksRef(word) then (RefTok(word), m)
    else (IdentTok(word), m)
  }

  function SignAt(s: string, i: nat): (r: (Sign, nat))
    requires i < |s|
    ensures i < r.1 <= |s|
  {
    if (s[i] == '<' || s[i] == '>') && At(s, i + 1, '=') then (Two(s[i], '='), i + 2)
    else if s[i] == '<' && At(s, i + 1, '>') then (Two('<', '>'), i + 2)
    else (One(s[i]), i + 1)
  }

  /** The token after position i0, and where it ends. */
  function NextTok(s: string, i0: nat): (r: (Tok, nat))
    requires i0 <= |s|
    ensures i0 <= r.1 <= |s| && (r.0 != End ==> i0 < r.1)
  {
    var i := Skip(s, i0);
    if i == |s| then (End, i)
    else
      var c := s[i];
      if c == '(' then (Open, i + 1)
      else if c == ')' then (Close, i + 1)
      else if c == ',' then (Comma, i + 1)
      else if c == '"' then var r := StringFrom(s, i + 1); (StrTok(r.0), r.1)
      else if c == '\'' then var r := QuotedRef(s, i); (RefTok(r.0), r.1)
      else if IsDigit(c) || (c == '.' && i + 1 < |s| && IsDigit(s[i + 1])) then
        NumberMoves(s, i);
        (NumTok(s[i..NumberEnd(s, i)]), NumberEnd(s, i))
      else if IsLetter(c) || c == '$' || c == '_' then WordTok(s, i)
      else var r := SignAt(s, i); (SignTok(r.0), r.1)
  }

  lemma NumberMoves(s: string, i: nat)
    requires i < |s| && IsNumChar(s[i])
    ensures NumberEnd(s, i) > i
  {
    assert Run(s, i, IsNumChar) > i;
  }
}

/** Formulas: precedence climbing over the tokens. */
module Formulas {
  import opened Options
  import opened Addresses
  import opened Workbooks
  import opened Lexer

  // ----- references and names -----

  /** The last exclamation mark before n, or none. */
  function LastMarkAt(s: string, n: nat): (r: int)
    requires n <= |s|
    ensures -1 <= r < n && (r >= 0 ==> s[r] == '!') && forall k :: r < k < n ==> s[k] != '!'
  {
    if n == 0 then -1 else if s[n - 1] == '!' then n - 1 else LastMarkAt(s, n - 1)
  }

  function ColonAt(s: string, i: nat): (r: nat)
    requires i <= |s|
    ensures i <= r <= |s| && (r < |s| ==> s[r] == ':') && forall k :: i <= k < r ==> s[k] != ':'
    decreases |s| - i
  {
    if i == |s| || s[i] == ':' then i else ColonAt(s, i + 1)
  }

  function Unquoted(s: string): string {
    if |s| > 0 && s[0] == '\'' && s[|s| - 1] == '\'' then (if |s| == 1 then "" else s[1..|s| - 1]) else s
  }

  function RowOf(a: Option<Address>): int { if a.Some? then a.value.row else 0 }

  function ColOf(a: Option<Address>): int { if a.Some? then a.value.col else 0 }

  /** The first corner of a range keeps what was read before anything that did not fit. */
  function Begun(s: string): Option<Address> {
    match AddressPrefix(s)
    case None => None
    case Some((a, _)) => Some(a)
  }

  /** A range when there is a colon, a cell when the text is an address, a name otherwise. */
  function MakeRef(raw: string): Expr {
    var bang := LastMarkAt(raw, |raw|);
    var sheet := if bang < 0 then "" else Unquoted(raw[..bang]);
    var body := raw[bang + 1..];
    var colon := ColonAt(body, 0);
    if colon < |body| then
      var a, b := Begun(body[..colon]), ParsedAddress(body[colon + 1..]);
      RangeRef(sheet, RowOf(a), ColOf(a), RowOf(b), ColOf(b))
    else
      match ParsedAddress(body)
      case Some(a) => CellRef(sheet, a.row, a.col)
      case None => NameRef(body)
  }

  function Upper(s: string): (r: string)
    ensures |r| == |s| && forall k :: 0 <= k < |s| ==> r[k] == UpperChar(s[k])
  {
    if |s| == 0 then "" else [UpperChar(s[0])] + Upper(s[1..])
  }

  function UpperChar(c: char): char { if 'a' <= c <= 'z' then (c as int - 'a' as int + 'A' as int) as char else c }

  function FnOf(name: string): Fn {
    if name == "SUM" then SUM else if name == "AVERAGE" then AVERAGE else if name == "MIN" then MIN
    else if name == "MAX" then MAX else if name == "PRODUCT" then PRODUCT else if name == "SUMSQ" then SUMSQ
    else if name == "ABS" then ABS else if name == "SQRT" then SQRT else if name == "EXP" then EXP
    else if name == "LN" then LN else if name == "LOG" then LOG else if name == "LOG10" then LOG10
    else if name == "SIN" then SIN else if name == "COS" then COS else if name == "TAN" then TAN
    else if name == "DEGREES" then DEGREES else if name == "RADIANS" then RADIANS else if name == "POWER" then POWER
    else if name == "PI" then PI else if name == "IF" then IF else if name == "IFERROR" then IFERROR
    else OTHER(name)
  }

  // ----- signs -----

  function Prec(sign: Sign): nat {
    match sign
    case Two(_, _) => 1
    case One(c) =>
      if c == '=' || c == '<' || c == '>' then 1
      else if c == '&' then 2
      else if c == '+' || c == '-' then 3
      else if c == '*' || c == '/' then 4
      else if c == '^' then 5
      else 0
  }

  function BinOf(sign: Sign): BinOp {
    match sign
    case Two(c, d) => if c == '<' && d == '>' then NotEqual else if c == '<' then AtMost else AtLeast
    case One(c) =>
      if c == '+' then Plus else if c == '-' then Minus else if c == '*' then Times else if c == '/' then Over
      else if c == '^' then Power else if c == '=' then Equal else if c == '<' then Less else if c == '>' then Greater
      else OtherOp
  }

  // ----- the parser -----

  /** What is being read: the current token and where it ends; ok until something did not fit. */
  datatype State = State(cur: Tok, at: nat, ok: bool)

  predicate Within(s: string, st: State) { st.at <= |s| }

  /** Falls whenever a token other than the end is passed. */
  function Left(s: string, st: State): nat
    requires Within(s, st)
  {
    2 * (|s| - st.at) + (if st.cur == End then 0 else 1)
  }

  function Adv(s: string, st: State): (r: State)
    requires Within(s, st)
    ensures Within(s, r) && r.ok == st.ok && Left(s, r) <= Left(s, st)
    ensures st.cur != End ==> Left(s, r) < Left(s, st)
  {
    var (t, e) := NextTok(s, st.at);
    State(t, e, st.ok)
  }

  function Failed(st: State): State { State(st.cur, st.at, false) }

  const NOTHING: Expr := Str("")

  predicate IsSign(t: Tok, c: char) { t == SignTok(One(c)) }

  function ParseExpr(num: string -> real, s: string, st: State, min: nat): (r: (Expr, State))
    requires Within(s, st)
    ensures Within(s, r.1) && Left(s, r.1) <= Left(s, st)
    decreases Left(s, st), 4
  {
    var (lhs, st1) := ParseUnary(num, s, st);
    ParseRest(num, s, st1, lhs, min)
  }

  /** While a sign binds at least as tightly as min, its right operand is read and joined. */
  function ParseRest(num: string -> real, s: string, st: State, lhs: Expr, min: nat): (r: (Expr, State))
    requires Within(s, st)
    ensures Within(s, r.1) && Left(s, r.1) <= Left(s, st)
    decreases Left(s, st), 0
  {
    if st.ok && st.cur.SignTok? && Prec(st.cur.sign) >= min && Prec(st.cur.sign) > 0 then
      var sign := st.cur.sign;
      var (rhs, st1) := ParseExpr(num, s, Adv(s, st), if sign == One('^') then 5 else Prec(sign) + 1);
      ParseRest(num, s, st1, Bin(BinOf(sign), lhs, rhs), min)
    else (lhs, st)
  }

  function ParseUnary(num: string -> real, s: string, st: State): (r: (Expr, State))
    requires Within(s, st)
    ensures Within(s, r.1) && Left(s, r.1) <= Left(s, st)
    decreases Left(s, st), 3
  {
    if IsSign(st.cur, '-') || IsSign(st.cur, '+') then
      var (a, st1) := ParseUnary(num, s, Adv(s, st));
      (Un(if IsSign(st.cur, '-') then Negate else Keep, a), st1)
    else
      var (a, st1) := ParsePrimary(num, s, st);
      ParsePercents(s, st1, a)
  }

  function ParsePercents(s: string, st: State, a: Expr): (r: (Expr, State))
    requires Within(s, st)
    ensures Within(s, r.1) && Left(s, r.1) <= Left(s, st)
    decreases Left(s, st)
  {
    if st.ok && IsSign(st.cur, '%') then ParsePercents(s, Adv(s, st), Un(Percent, a)) else (a, st)
  }

  function ParsePrimary(num: string -> real, s: string, st: State): (r: (Expr, State))
    requires Within(s, st)
    ensures Within(s, r.1) && Left(s, r.1) <= Left(s, st)
    decreases Left(s, st), 2
  {
    match st.cur
    case NumTok(text) => (Num(num(text)), Adv(s, st))
    case StrTok(text) => (Str(text), Adv(s, st))
    case RefTok(text) => (MakeRef(text), Adv(s, st))
    case Open =>
      var (a, st1) := ParseExpr(num, s, Adv(s, st), 1);
      (a, if st1.cur == Close then Adv(s, st1) else Failed(st1))
    case IdentTok(name) =>
      var st1 := Adv(s, st);
      if st1.cur != Open then (NameRef(name), st1)
      else
        var st2 := Adv(s, st1);
        var (args, st3) := if st2.cur == Close then ([], st2) else ParseArgs(num, s, st2);
        (Call(FnOf(Upper(name)), args), if st3.cur == Close then Adv(s, st3) else Failed(st3))
    case _ => (NOTHING, Failed(st))
  }

  function ParseArgs(num: string -> real, s: string, st: State): (r: (seq<Expr>, State))
    requires Within(s, st)
    ensures Within(s, r.1) && Left(s, r.1) <= Left(s, st)
    decreases Left(s, st), 5
  {
    var (a, st1) := ParseExpr(num, s, st, 1);
    if st1.cur == Comma then
      var (rest, st2) := ParseArgs(num, s, Adv(s, st1));
      ([a] + rest, st2)
    else ([a], st1)
  }

  /** A formula, its leading equals sign aside; nothing may be left over. */
  function ParsedFormula(num: string -> real, src: string): Option<Expr> {
    var body := if At(src, 0, '=') then src[1..] else src;
    if |body| == 0 then None
    else
      var (a, st) := ParseExpr(num, body, Adv(body, State(End, 0, true)), 1);
      if st.ok && st.cur == End then Some(a) else None
  }
}
