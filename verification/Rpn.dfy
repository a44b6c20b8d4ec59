/** Formulas stored as postfix bytes: their decoding to text, and what parsing that text gives. */
module Rpn {
  import opened Options
  import opened BitReader
  import opened Addresses
  import opened Workbooks
  import opened Lexer
  import opened Formulas

  // ----- decoding -----

  function Word16(b: seq<Byte>, i: nat): nat
    requires i + 2 <= |b|
  {
    b[i] as nat + 256 * b[i + 1] as nat
  }

  function Word32(b: seq<Byte>, i: nat): nat
    requires i + 4 <= |b|
  {
    Word16(b, i) + 65536 * Word16(b, i + 2)
  }

  function FnName(ift: nat): Option<string> {
    if ift == 0 then Some("COUNT") else if ift == 4 then Some("SUM") else if ift == 5 then Some("AVERAGE")
    else if ift == 6 then Some("MIN") else if ift == 7 then Some("MAX") else if ift == 24 then Some("ABS")
    else if ift == 19 then Some("PI") else if ift == 36 then Some("AND") else if ift == 37 then Some("OR")
    else if ift == 38 then Some("NOT") else if ift == 1 then Some("IF") else None
  }

  function SignChar(code: nat): char
    requires 3 <= code <= 7
  {
    if code == 3 then '+' else if code == 4 then '-' else if code == 5 then '*' else if code == 6 then '/' else '^'
  }

  function Joined(args: seq<string>): string {
    if |args| == 0 then "" else if |args| == 1 then args[0] else args[0] + "," + Joined(args[1..])
  }

  function CellText(row: nat, col: nat): string { A1Text(row, col % 16384) }

  /** One code and its operands, applied to the stack of texts; none when something is missing. */
  function Step(real8: seq<Byte> -> string, b: seq<Byte>, i: nat, st: seq<string>): (r: Option<(nat, seq<string>)>)
    requires i < |b|
    ensures r.Some? ==> i < r.value.0 <= |b|
  {
    var code, n := b[i] as nat % 128, |st|;
    if code == 0x1E then
      if i + 3 > |b| then None else Some((i + 3, st + [Decimal(Word16(b, i + 1))]))
    else if code == 0x1F then
      if i + 9 > |b| then None else Some((i + 9, st + [real8(b[i + 1..i + 9])]))
    else if 3 <= code <= 7 then
      if n < 2 then None else Some((i + 1, st[..n - 2] + ["(" + st[n - 2] + [SignChar(code)] + st[n - 1] + ")"]))
    else if code == 0x12 || code == 0x15 then Some((i + 1, st))
    else if code == 0x13 then Some((i + 1, if n == 0 then st else st[..n - 1] + ["-" + st[n - 1]]))
    else if code == 0x24 || code == 0x44 || code == 0x64 then
      if i + 7 > |b| then None else Some((i + 7, st + [CellText(Word32(b, i + 1), Word16(b, i + 5))]))
    else if code == 0x25 || code == 0x45 || code == 0x65 then
      if i + 13 > |b| then None
      else
        var low := CellText(Word32(b, i + 1), Word16(b, i + 9));
        Some((i + 13, st + [low + ":" + CellText(Word32(b, i + 5), Word16(b, i + 11))]))
    else if code == 0x21 || code == 0x41 || code == 0x61 then FixedCall(b, i, st)
    else if code == 0x22 || code == 0x42 || code == 0x62 then VarCall(b, i, st)
    else None
  }

  /** A function of fixed arity takes the text on top without removing it. */
  function FixedCall(b: seq<Byte>, i: nat, st: seq<string>): (r: Option<(nat, seq<string>)>)
    ensures r.Some? ==> i < r.value.0 <= |b|
  {
    if i + 3 > |b| || FnName(Word16(b, i + 1)).None? then None
    else Some((i + 3, st + [FnName(Word16(b, i + 1)).value + "(" + (if |st| == 0 then "" else st[|st| - 1]) + ")"]))
  }

  /** A function of any arity takes as many texts as its count says. */
  function VarCall(b: seq<Byte>, i: nat, st: seq<string>): (r: Option<(nat, seq<string>)>)
    ensures r.Some? ==> i < r.value.0 <= |b|
  {
    if i + 4 > |b| then None
    else
      var count, name := b[i + 1] as nat, FnName(Word16(b, i + 2));
      if name.None? || |st| < count then None
      else Some((i + 4, st[..|st| - count] + [name.value + "(" + Joined(st[|st| - count..]) + ")"]))
  }

  function Decode(real8: seq<Byte> -> string, b: seq<Byte>, i: nat, st: seq<string>): Option<seq<string>>
    requires i <= |b|
    decreases |b| - i
  {
    if i == |b| then Some(st)
    else match Step(real8, b, i, st)
      case None => None
      case Some((j, next)) => Decode(real8, b, j, next)
  }

  function Decoded(real8: seq<Byte> -> string, b: seq<Byte>): Option<string> {
    match Decode(real8, b, 0, [])
    case None => None
    case Some(st) => if |st| == 1 then Some(st[0]) else None
  }

  method DecodeRpn(real8: seq<Byte> -> string, b: seq<Byte>) returns (r: Option<string>)
    ensures r == Decoded(real8, b)
  {
    var st: seq<string> := [];
    var i := 0;
    while i < |b|
      invariant 0 <= i <= |b| && Decode(real8, b, i, st) == Decode(real8, b, 0, [])
    {
      var next := Step(real8, b, i, st);
      if next.None? {
        return None;
      }
      i, st := next.value.0, next.value.1;
    }
    r := if |st| == 1 then Some(st[0]) else None;
  }

  // ----- expressions in postfix -----

  datatype Term =
    | Lit(v: nat)
    | Place(row: nat, col: nat)
    | Block(row: nat, col: nat, row2: nat, col2: nat)
    | Infix(code: nat, left: Term, right: Term)
    | Negated(arg: Term)
    | Apply(ift: nat, args: seq<Term>)

  /** What the codes can carry: 16-bit numbers, 32-bit rows, 14-bit columns, known functions. */
  predicate Encodable(e: Term) {
    match e
    case Lit(v) => v < 65536
    case Place(r, c) => r < 0x1_0000_0000 && c < 16384
    case Block(r, c, r2, c2) => r < 0x1_0000_0000 && c < 16384 && r2 < 0x1_0000_0000 && c2 < 16384
    case Infix(code, a, b) => 3 <= code <= 7 && Encodable(a) && Encodable(b)
    case Negated(a) => Encodable(a)
    case Apply(ift, args) => FnName(ift).Some? && |args| < 256 && forall i :: 0 <= i < |args| ==> Encodable(args[i])
  }

  function Bytes2(v: nat): seq<Byte>
    requires v < 65536
  {
    [v % 256, v / 256]
  }

  function Bytes4(v: nat): seq<Byte>
    requires v < 0x1_0000_0000
  {
    Bytes2(v % 65536) + Bytes2(v / 65536)
  }

  function Postfix(e: Term): seq<Byte>
    requires Encodable(e)
    decreases e, 0
  {
    match e
    case Lit(v) => [0x1E] + Bytes2(v)
    case Place(r, c) => [0x24] + Bytes4(r) + Bytes2(c)
    case Block(r, c, r2, c2) => [0x25] + Bytes4(r) + Bytes4(r2) + Bytes2(c) + Bytes2(c2)
    case Infix(code, a, b) => Postfix(a) + Postfix(b) + [code]
    case Negated(a) => Postfix(a) + [0x13]
    case Apply(ift, args) =>
      KnownSmall(ift);
      PostfixAll(args) + [0x22, |args|] + Bytes2(ift)
  }

  lemma KnownSmall(ift: nat)
    requires FnName(ift).Some?
    ensures ift < 65536
  {
  }

  function PostfixAll(es: seq<Term>): seq<Byte>
    requires forall i :: 0 <= i < |es| ==> Encodable(es[i])
    decreases es, 1
  {
    if |es| == 0 then [] else PostfixAll(es[..|es| - 1]) + Postfix(es[|es| - 1])
  }

  /** The text that decoding makes. */
  function Text(e: Term): string
    requires Encodable(e)
    decreases e, 0
  {
    match e
    case Lit(v) => Decimal(v)
    case Place(r, c) => A1Text(r, c)
    case Block(r, c, r2, c2) => A1Text(r, c) + ":" + A1Text(r2, c2)
    case Infix(code, a, b) => "(" + Text(a) + [SignChar(code)] + Text(b) + ")"
    case Negated(a) => "-" + Text(a)
    case Apply(ift, args) => FnName(ift).value + "(" + Joined(Texts(args)) + ")"
  }

  function Texts(es: seq<Term>): (ts: seq<string>)
    requires forall i :: 0 <= i < |es| ==> Encodable(es[i])
    ensures |ts| == |es| && forall i :: 0 <= i < |es| ==> ts[i] == Text(es[i])
    decreases es, 1
  {
    if |es| == 0 then [] else Texts(es[..|es| - 1]) + [Text(es[|es| - 1])]
  }

  // ----- decoding gives the text -----

  predicate Has(b: seq<Byte>, i: nat, part: seq<Byte>) { i + |part| <= |b| && b[i..i + |part|] == part }

  lemma HasSplit(b: seq<Byte>, i: nat, p: seq<Byte>, q: seq<Byte>)
    requires Has(b, i, p + q)
    ensures Has(b, i, p) && Has(b, i + |p|, q)
  {
    assert b[i..i + |p|] == (p + q)[..|p|];
    assert b[i + |p|..i + |p| + |q|] == (p + q)[|p|..];
  }

  lemma Read2(b: seq<Byte>, i: nat, v: nat)
    requires v < 65536 && Has(b, i, Bytes2(v))
    ensures i + 2 <= |b| && Word16(b, i) == v
  {
    var part := b[i..i + 2];
    assert part[0] == b[i] && part[1] == b[i + 1];
  }

  lemma Read4(b: seq<Byte>, i: nat, v: nat)
    requires v < 0x1_0000_0000 && Has(b, i, Bytes4(v))
    ensures i + 4 <= |b| && Word32(b, i) == v
  {
    HasSplit(b, i, Bytes2(v % 65536), Bytes2(v / 65536));
    Read2(b, i, v % 65536);
    Read2(b, i + 2, v / 65536);
  }

  lemma Read1(b: seq<Byte>, i: nat, c: Byte)
    requires Has(b, i, [c])
    ensures i < |b| && b[i] == c
  {
    assert b[i..i + 1][0] == b[i];
  }

  lemma Onward(real8: seq<Byte> -> string, b: seq<Byte>, i: nat, st: seq<string>, j: nat, next: seq<string>)
    requires i < |b| && Step(real8, b, i, st) == Some((j, next))
    ensures j <= |b| && Decode(real8, b, i, st) == Decode(real8, b, j, next)
  {
    hide Step;
  }

  lemma DecodesLit(real8: seq<Byte> -> string, b: seq<Byte>, i: nat, st: seq<string>, v: nat)
    requires v < 65536 && Has(b, i, [0x1E] + Bytes2(v))
    ensures i + 3 <= |b| && Decode(real8, b, i, st) == Decode(real8, b, i + 3, st + [Decimal(v)])
  {
    HasSplit(b, i, [0x1E], Bytes2(v));
    Read1(b, i, 0x1E);
    Read2(b, i + 1, v);
    hide Decode;
    hide Word16;
    hide Decimal;
    hide Has;
    Onward(real8, b, i, st, i + 3, st + [Decimal(v)]);
  }

  lemma DecodesCell(real8: seq<Byte> -> string, b: seq<Byte>, i: nat, st: seq<string>, r: nat, c: nat)
    requires r < 0x1_0000_0000 && c < 16384 && Has(b, i, [0x24] + Bytes4(r) + Bytes2(c))
    ensures i + 7 <= |b| && Decode(real8, b, i, st) == Decode(real8, b, i + 7, st + [A1Text(r, c)])
  {
    hide Decode;
    hide Word16;
    hide Word32;
    hide A1Text;
    hide Has;
    hide Bytes2;
    hide Bytes4;
    LengthsOf(r, c);
    HasSplit(b, i, [0x24] + Bytes4(r), Bytes2(c));
    HasSplit(b, i, [0x24], Bytes4(r));
    Read1(b, i, 0x24);
    Read4(b, i + 1, r);
    Read2(b, i + 5, c);
    Onward(real8, b, i, st, i + 7, st + [A1Text(r, c)]);
  }

  lemma LengthsOf(r: nat, c: nat)
    requires r < 0x1_0000_0000 && c < 65536
    ensures |Bytes4(r)| == 4 && |Bytes2(c)| == 2
  {
  }

  lemma DecodesBlock(real8: seq<Byte> -> string, b: seq<Byte>, i: nat, st: seq<string>, r: nat, c: nat, r2: nat,
                     c2: nat)
    requires Encodable(Block(r, c, r2, c2)) && Has(b, i, [0x25] + Bytes4(r) + Bytes4(r2) + Bytes2(c) + Bytes2(c2))
    ensures i + 13 <= |b|
    ensures Decode(real8, b, i, st) == Decode(real8, b, i + 13, st + [A1Text(r, c) + ":" + A1Text(r2, c2)])
  {
    hide Decode;
    hide Word16;
    hide Word32;
    hide A1Text;
    hide Has;
    hide Bytes2;
    hide Bytes4;
    LengthsOf(r, c);
    LengthsOf(r2, c2);
    var p0: seq<Byte> := [0x25];
    var p1 := p0 + Bytes4(r);
    var p2 := p1 + Bytes4(r2);
    HasSplit(b, i, p2 + Bytes2(c), Bytes2(c2));
    HasSplit(b, i, p2, Bytes2(c));
    HasSplit(b, i, p1, Bytes4(r2));
    HasSplit(b, i, p0, Bytes4(r));
    Read1(b, i, 0x25);
    Read4(b, i + 1, r);
    Read4(b, i + 5, r2);
    Read2(b, i + 9, c);
    Read2(b, i + 11, c2);
    Onward(real8, b, i, st, i + 13, st + [A1Text(r, c) + ":" + A1Text(r2, c2)]);
  }

  lemma DecodesSign(real8: seq<Byte> -> string, b: seq<Byte>, i: nat, st: seq<string>, x: string, y: string, code: nat)
    requires 3 <= code <= 7 && Has(b, i, [code])
    ensures i + 1 <= |b|
    ensures Decode(real8, b, i, st + [x] + [y]) == Decode(real8, b, i + 1, st + ["(" + x + [SignChar(code)] + y + ")"])
  {
    hide Decode;
    hide SignChar;
    Read1(b, i, code);
    hide Has;
    var full := st + [x] + [y];
    assert full[..|full| - 2] == st;
    Onward(real8, b, i, full, i + 1, st + ["(" + x + [SignChar(code)] + y + ")"]);
  }

  lemma DecodesMinus(real8: seq<Byte> -> string, b: seq<Byte>, i: nat, st: seq<string>, x: string)
    requires Has(b, i, [0x13])
    ensures i + 1 <= |b| && Decode(real8, b, i, st + [x]) == Decode(real8, b, i + 1, st + ["-" + x])
  {
    hide Decode;
    Read1(b, i, 0x13);
    hide Has;
    var full := st + [x];
    assert full[..|full| - 1] == st;
    Onward(real8, b, i, full, i + 1, st + ["-" + x]);
  }

  lemma DecodesApply(real8: seq<Byte> -> string, b: seq<Byte>, i: nat, st: seq<string>, ts: seq<string>, ift: nat)
    requires FnName(ift).Some? && ift < 65536 && |ts| < 256 && Has(b, i, [0x22, |ts|] + Bytes2(ift))
    ensures i + 4 <= |b|
    ensures Decode(real8, b, i, st + ts) == Decode(real8, b, i + 4, st + [FnName(ift).value + "(" + Joined(ts) + ")"])
  {
    hide Decode;
    hide Joined;
    hide FnName;
    hide Word16;
    HasSplit(b, i, [0x22, |ts|], Bytes2(ift));
    HasSplit2(b, i, 0x22, |ts|);
    Read2(b, i + 2, ift);
    hide Has;
    var full := st + ts;
    assert full[..|full| - |ts|] == st && full[|full| - |ts|..] == ts;
    Onward(real8, b, i, full, i + 4, st + [FnName(ift).value + "(" + Joined(ts) + ")"]);
  }

  lemma HasSplit2(b: seq<Byte>, i: nat, x: Byte, y: Byte)
    requires Has(b, i, [x, y])
    ensures i + 2 <= |b| && b[i] == x && b[i + 1] == y
  {
    assert b[i..i + 2][0] == b[i] && b[i..i + 2][1] == b[i + 1];
  }

  /** Decoding the postfix form of e pushes its text and goes on after it. */
  lemma {:induction false} DecodesTerm(real8: seq<Byte> -> string, b: seq<Byte>, i: nat, st: seq<string>, e: Term)
    requires Encodable(e) && Has(b, i, Postfix(e))
    ensures i + |Postfix(e)| <= |b| && Decode(real8, b, i, st) == Decode(real8, b, i + |Postfix(e)|, st + [Text(e)])
    decreases e, 0
  {
    hide Decode;
    hide A1Text;
    hide Decimal;
    hide SignChar;
    hide Bytes2;
    hide Bytes4;
    hide Has;
    hide FnName;
    hide Joined;
    match e
    case Lit(v) =>
      LengthsOf(0, v);
      DecodesLit(real8, b, i, st, v);
    case Place(r, c) =>
      LengthsOf(r, c);
      DecodesCell(real8, b, i, st, r, c);
    case Block(r, c, r2, c2) =>
      LengthsOf(r, c);
      LengthsOf(r2, c2);
      DecodesBlock(real8, b, i, st, r, c, r2, c2);
    case Infix(code, a, d) =>
      HasSplit(b, i, Postfix(a) + Postfix(d), [code]);
      HasSplit(b, i, Postfix(a), Postfix(d));
      DecodesTerm(real8, b, i, st, a);
      DecodesTerm(real8, b, i + |Postfix(a)|, st + [Text(a)], d);
      DecodesSign(real8, b, i + |Postfix(a)| + |Postfix(d)|, st, Text(a), Text(d), code);
    case Negated(a) =>
      HasSplit(b, i, Postfix(a), [0x13]);
      DecodesTerm(real8, b, i, st, a);
      DecodesMinus(real8, b, i + |Postfix(a)|, st, Text(a));
    case Apply(ift, args) =>
      KnownSmall(ift);
      LengthsOf(0, ift);
      var tail := [0x22, |args|] + Bytes2(ift);
      assert PostfixAll(args) + tail == Postfix(e);
      HasSplit(b, i, PostfixAll(args), tail);
      DecodesAll(real8, b, i, st, args);
      DecodesApply(real8, b, i + |PostfixAll(args)|, st, Texts(args), ift);
  }

  lemma {:induction false} DecodesAll(real8: seq<Byte> -> string, b: seq<Byte>, i: nat, st: seq<string>, es: seq<Term>)
    requires (forall k :: 0 <= k < |es| ==> Encodable(es[k])) && Has(b, i, PostfixAll(es))
    ensures i + |PostfixAll(es)| <= |b|
    ensures Decode(real8, b, i, st) == Decode(real8, b, i + |PostfixAll(es)|, st + Texts(es))
    decreases es, 1
  {
    hide Decode;
    hide Has;
    hide Postfix;
    hide Text;
    hide Encodable;
    if |es| == 0 {
      assert st + Texts(es) == st;
      HasIn(b, i, []);
    } else {
      var front, last := es[..|es| - 1], es[|es| - 1];
      HasSplit(b, i, PostfixAll(front), Postfix(last));
      DecodesAll(real8, b, i, st, front);
      DecodesTerm(real8, b, i + |PostfixAll(front)|, st + Texts(front), last);
      assert st + Texts(front) + [Text(last)] == st + Texts(es);
    }
  }

  lemma HasIn(b: seq<Byte>, i: nat, part: seq<Byte>)
    requires Has(b, i, part)
    ensures i + |part| <= |b|
  {
  }

  lemma DecodedText(real8: seq<Byte> -> string, e: Term)
    requires Encodable(e)
    ensures Decoded(real8, Postfix(e)) == Some(Text(e))
  {
    var b := Postfix(e);
    assert b[0..|b|] == b;
    DecodesTerm(real8, b, 0, [], e);
    assert [] + [Text(e)] == [Text(e)];
  }
}

/** Parsing the decoded text gives the expression back. */
module RpnRoundTrip {
  import opened Options
  import opened BitReader
  import opened Addresses
  import W = Workbooks
  import opened Lexer
  import opened Formulas
  import opened Rpn

  // ----- tokens of the texts -----

  /** The token at i, with nothing failed so far. */
  function TokAt(s: string, i: nat): (st: State)
    requires i <= |s|
    ensures Within(s, st)
  {
    var (t, e) := NextTok(s, i);
    State(t, e, true)
  }

  predicate IsStop(c: char) { c in {')', ',', '+', '-', '*', '/', '^'} }

  /** What can follow a term in a decoded text. */
  predicate Stop(s: string, j: nat) { j == |s| || (j < |s| && IsStop(s[j])) }

  lemma StopTok(s: string, j: nat)
    requires Stop(s, j)
    ensures Skip(s, j) == j
    ensures var t := TokAt(s, j).cur;
      t == End || t == Close || t == Comma || (t.SignTok? && t.sign.One? && t.sign.c != '%')
  {
  }

  lemma TokChar(s: string, i: nat)
    requires i < |s| && s[i] in {'(', ')', ',', '+', '-', '*', '/', '^'}
    ensures TokAt(s, i).at == i + 1 && TokAt(s, i).ok
    ensures TokAt(s, i).cur == (if s[i] == '(' then Open else if s[i] == ')' then Close else if s[i] == ',' then Comma
                                else SignTok(One(s[i])))
  {
  }

  predicate TextAt(s: string, i: nat, t: string) { i + |t| <= |s| && s[i..i + |t|] == t }

  lemma TextSplit(s: string, i: nat, t: string, u: string)
    requires TextAt(s, i, t + u)
    ensures TextAt(s, i, t) && TextAt(s, i + |t|, u)
  {
    assert s[i..i + |t|] == (t + u)[..|t|];
    assert s[i + |t|..i + |t| + |u|] == (t + u)[|t|..];
  }

  lemma TextChar(s: string, i: nat, t: string, k: nat)
    requires TextAt(s, i, t) && k < |t|
    ensures i + k < |s| && s[i + k] == t[k]
  {
    assert s[i..i + |t|][k] == t[k];
  }

  lemma TextAll(s: string, i: nat, t: string, p: char -> bool)
    requires TextAt(s, i, t) && forall k :: 0 <= k < |t| ==> p(t[k])
    ensures forall k :: i <= k < i + |t| ==> p(s[k])
  {
    forall k | i <= k < i + |t|
      ensures p(s[k])
    {
      TextChar(s, i, t, k - i);
    }
  }

  lemma LexNumber(s: string, i: nat, t: string)
    requires TextAt(s, i, t) && |t| > 0 && AllDigits(t) && Stop(s, i + |t|)
    ensures NextTok(s, i) == (NumTok(t), i + |t|)
  {
    TextChar(s, i, t, 0);
    TextAll(s, i, t, IsNumChar);
    RunIs(s, i, i + |t|, IsNumChar);
    assert Skip(s, i) == i;
  }

  /** Letters and then digits. */
  predicate LettersDigits(t: string, m: nat) {
    0 < m < |t| && (forall k :: 0 <= k < m ==> IsLetter(t[k])) && forall k :: m <= k < |t| ==> IsDigit(t[k])
  }

  lemma LooksLikeRef(t: string, m: nat)
    requires LettersDigits(t, m)
    ensures LooksRef(t)
  {
    RunIs(t, 0, m, IsLetter);
    RunIs(t, m, |t|, IsDigit);
  }

  lemma WordRun(s: string, i: nat, t: string)
    requires TextAt(s, i, t) && |t| > 0 && (forall k :: 0 <= k < |t| ==> IsAlnum(t[k])) && IsLetter(t[0])
    requires i + |t| < |s| ==> !IsWord(s[i + |t|])
    ensures Skip(s, i) == i && Run(s, i, IsWord) == i + |t| && s[i..i + |t|] == t && IsLetter(s[i])
  {
    TextChar(s, i, t, 0);
    TextAll(s, i, t, IsWord);
    RunIs(s, i, i + |t|, IsWord);
  }

  lemma NextIsWord(s: string, i: nat)
    requires i < |s| && Skip(s, i) == i && IsLetter(s[i])
    ensures NextTok(s, i) == WordTok(s, i)
  {
    hide WordTok;
  }

  lemma WordCell(s: string, i: nat, m: nat)
    requires i < m <= |s| && Skip(s, i) == i && IsLetter(s[i]) && Run(s, i, IsWord) == m && LooksRef(s[i..m])
    requires Skip(s, m) == m && !At(s, m, '!') && !At(s, m, ':') && !At(s, m, '(')
    ensures NextTok(s, i) == (RefTok(s[i..m]), m)
  {
    NextIsWord(s, i);
    hide NextTok;
    hide LooksRef;
    hide Run;
    hide Skip;
  }

  lemma WordBlock(s: string, i: nat, m: nat, e: nat)
    requires i < m < e <= |s| && Skip(s, i) == i && IsLetter(s[i]) && Run(s, i, IsWord) == m && LooksRef(s[i..m])
    requires s[m] == ':' && RefStart(s, m + 1) && Run(s, m + 1, IsRefChar) == e
    ensures NextTok(s, i) == (RefTok(s[i..e]), e)
  {
    NextIsWord(s, i);
    hide NextTok;
    hide LooksRef;
    hide Run;
    hide Skip;
  }

  lemma LexCell(s: string, i: nat, t: string, m: nat)
    requires TextAt(s, i, t) && LettersDigits(t, m) && Stop(s, i + |t|)
    ensures NextTok(s, i) == (RefTok(t), i + |t|)
  {
    WordRun(s, i, t);
    LooksLikeRef(t, m);
    StopTok(s, i + |t|);
    hide LooksRef;
    hide Run;
    hide NextTok;
    hide Skip;
    hide LettersDigits;
    WordCell(s, i, i + |t|);
  }

  lemma LexBlock(s: string, i: nat, t: string, m: nat, u: string, n: nat)
    requires TextAt(s, i, t + ":" + u) && LettersDigits(t, m) && LettersDigits(u, n) && Stop(s, i + |t| + 1 + |u|)
    ensures NextTok(s, i) == (RefTok(t + ":" + u), i + |t| + 1 + |u|)
  {
    hide LooksRef;
    hide NextTok;
    TextSplit(s, i, t + ":", u);
    TextSplit(s, i, t, ":");
    var j := i + |t|;
    TextChar(s, j, ":", 0);
    WordRun(s, i, t);
    LooksLikeRef(t, m);
    SecondCorner(s, j + 1, u, n);
    hide Run;
    hide Skip;
    hide LettersDigits;
    WordBlock(s, i, j, j + 1 + |u|);
  }

  lemma SecondCorner(s: string, i: nat, u: string, n: nat)
    requires TextAt(s, i, u) && LettersDigits(u, n) && Stop(s, i + |u|)
    ensures RefStart(s, i) && Run(s, i, IsRefChar) == i + |u|
  {
    TextChar(s, i, u, 0);
    TextAll(s, i, u, IsRefChar);
    RunIs(s, i, i + |u|, IsRefChar);
  }

  predicate AllCapitals(t: string) { |t| > 0 && forall k :: 0 <= k < |t| ==> 'A' <= t[k] <= 'Z' }

  lemma LexName(s: string, i: nat, t: string)
    requires TextAt(s, i, t) && AllCapitals(t) && i + |t| < |s| && s[i + |t|] == '('
    ensures NextTok(s, i) == (IdentTok(t), i + |t|)
  {
    WordRun(s, i, t);
    RunIs(t, 0, |t|, IsLetter);
    assert !LooksRef(t);
    assert Skip(s, i + |t|) == i + |t|;
    NextIsWord(s, i);
    hide LooksRef;
    hide Run;
    hide NextTok;
    hide Skip;
  }

  lemma {:induction false} UpperSame(t: string)
    requires forall k :: 0 <= k < |t| ==> 'A' <= t[k] <= 'Z'
    ensures Upper(t) == t
  {
  }

  // ----- references -----

  lemma A1Shape(row: nat, col: nat) returns (m: nat)
    ensures LettersDigits(A1Text(row, col), m)
  {
    LettersRoundTrip(col + 1);
    DecimalRoundTrip(row + 1);
    m := |Letters(col + 1)|;
  }

  lemma PlainBody(t: string)
    requires forall k :: 0 <= k < |t| ==> t[k] != '!'
    ensures LastMarkAt(t, |t|) == -1 && t[0..] == t
  {
  }

  lemma {:induction false} ColonIs(t: string, i: nat, j: nat)
    requires i <= j <= |t| && (forall k :: i <= k < j ==> t[k] != ':') && (j < |t| ==> t[j] == ':')
    ensures ColonAt(t, i) == j
    decreases j - i
  {
    if i < j { ColonIs(t, i + 1, j); }
  }

  lemma MakeCell(t: string, a: Address)
    requires LastMarkAt(t, |t|) == -1 && ColonAt(t, 0) == |t| && ParsedAddress(t) == Some(a)
    ensures MakeRef(t) == W.CellRef("", a.row, a.col)
  {
    hide ParsedAddress;
    hide LastMarkAt;
    hide ColonAt;
    assert t[0..] == t;
  }

  lemma MakeBlock(raw: string, t: string, u: string, a: Address, b: Address)
    requires raw == t + ":" + u && LastMarkAt(raw, |raw|) == -1 && ColonAt(raw, 0) == |t|
    requires Begun(t) == Some(a) && ParsedAddress(u) == Some(b)
    ensures MakeRef(raw) == W.RangeRef("", a.row, a.col, b.row, b.col)
  {
    hide ParsedAddress;
    hide Begun;
    hide LastMarkAt;
    hide ColonAt;
    assert raw[0..] == raw;
    assert raw[..|t|] == t && raw[|t| + 1..] == u;
  }

  lemma CellBack(row: nat, col: nat)
    ensures MakeRef(A1Text(row, col)) == W.CellRef("", row, col)
  {
    var t := A1Text(row, col);
    var m := A1Shape(row, col);
    A1RoundTrip(row, col);
    hide A1Text;
    hide ParsedAddress;
    hide MakeRef;
    PlainBody(t);
    ColonIs(t, 0, |t|);
    MakeCell(t, Address(row, col, false, false));
  }

  lemma BlockBack(row: nat, col: nat, row2: nat, col2: nat)
    ensures MakeRef(A1Text(row, col) + ":" + A1Text(row2, col2)) == W.RangeRef("", row, col, row2, col2)
  {
    var t, u := A1Text(row, col), A1Text(row2, col2);
    var m := A1Shape(row, col);
    var n := A1Shape(row2, col2);
    A1RoundTrip(row, col);
    A1RoundTrip(row2, col2);
    hide A1Text;
    hide ParsedAddress;
    hide MakeRef;
    hide Begun;
    BegunWhole(t);
    var raw := t + ":" + u;
    PlainBody(raw);
    ColonIs(raw, 0, |t|);
    MakeBlock(raw, t, u, Address(row, col, false, false), Address(row2, col2, false, false));
  }

  lemma BegunWhole(t: string)
    requires ParsedAddress(t).Some?
    ensures Begun(t) == ParsedAddress(t)
  {
    hide AddressPrefix;
  }

  // ----- parsing -----

  /** Decimal digits are read as the number they stand for. */
  ghost predicate ReadsDecimals(num: string -> real) {
    forall n: nat :: num(Decimal(n)) == n as real
  }

  /** The operator of a code. */
  function OpOf(code: nat): W.BinOp
    requires 3 <= code <= 7
  {
    match code
    case 3 => W.Plus
    case 4 => W.Minus
    case 5 => W.Times
    case 6 => W.Over
    case _ => W.Power
  }

  /** The function of a number. */
  function KnownFn(ift: nat): W.Fn {
    match ift
    case 1 => W.IF
    case 4 => W.SUM
    case 5 => W.AVERAGE
    case 6 => W.MIN
    case 7 => W.MAX
    case 19 => W.PI
    case 24 => W.ABS
    case 36 => W.OTHER("AND")
    case 37 => W.OTHER("OR")
    case 38 => W.OTHER("NOT")
    case _ => W.OTHER("COUNT")
  }

  lemma CodeMeaning(code: nat)
    requires 3 <= code <= 7
    ensures BinOf(One(SignChar(code))) == OpOf(code)
  {
  }

  lemma NumberMeaning(ift: nat)
    requires FnName(ift).Some?
    ensures FnOf(FnName(ift).value) == KnownFn(ift)
  {
    if ift <= 5 { LowNumber(ift); } else if ift <= 19 { MiddleNumber(ift); } else { HighNumber(ift); }
    hide FnName;
    hide FnOf;
  }

  lemma LowNumber(ift: nat)
    requires ift <= 5 && FnName(ift).Some?
    ensures FnOf(FnName(ift).value) == KnownFn(ift)
  {
  }

  lemma MiddleNumber(ift: nat)
    requires 5 < ift <= 19 && FnName(ift).Some?
    ensures FnOf(FnName(ift).value) == KnownFn(ift)
  {
  }

  lemma HighNumber(ift: nat)
    requires 19 < ift && FnName(ift).Some?
    ensures FnOf(FnName(ift).value) == KnownFn(ift)
  {
  }

  function ExprOf(e: Term): W.Expr
    requires Encodable(e)
    decreases e, 0
  {
    match e
    case Lit(v) => W.Num(v as real)
    case Place(r, c) => W.CellRef("", r, c)
    case Block(r, c, r2, c2) => W.RangeRef("", r, c, r2, c2)
    case Infix(code, a, b) => W.Bin(OpOf(code), ExprOf(a), ExprOf(b))
    case Negated(a) => W.Un(W.Negate, ExprOf(a))
    case Apply(ift, args) => W.Call(KnownFn(ift), ExprsOf(args))
  }

  function ExprsOf(es: seq<Term>): (r: seq<W.Expr>)
    requires forall i :: 0 <= i < |es| ==> Encodable(es[i])
    ensures |r| == |es| && forall i :: 0 <= i < |es| ==> r[i] == ExprOf(es[i])
    decreases es, 1
  {
    if |es| == 0 then [] else ExprsOf(es[..|es| - 1]) + [ExprOf(es[|es| - 1])]
  }

  lemma AfterToken(s: string, i: nat)
    requires i <= |s|
    ensures Adv(s, TokAt(s, i)) == TokAt(s, TokAt(s, i).at)
  {
    hide NextTok;
  }

  lemma SignBinds(code: nat)
    requires 3 <= code <= 7
    ensures Prec(One(SignChar(code))) > 0 && IsStop(SignChar(code))
  {
  }

  /** A primary before a stop is the whole operand. */
  lemma PrimaryOnly(num: string -> real, s: string, i: nat, j: nat, x: W.Expr)
    requires i <= |s| && j <= |s| && Stop(s, j) && ParsePrimary(num, s, TokAt(s, i)) == (x, TokAt(s, j))
    requires !IsSign(TokAt(s, i).cur, '-') && !IsSign(TokAt(s, i).cur, '+')
    ensures ParseUnary(num, s, TokAt(s, i)) == (x, TokAt(s, j))
  {
    StopTok(s, j);
    hide ParsePrimary;
    hide NextTok;
  }

  /** An operand before a closing parenthesis or a comma, or at the end, is a whole expression. */
  lemma OperandAlone(num: string -> real, s: string, i: nat, j: nat, x: W.Expr, min: nat)
    requires i <= |s| && j <= |s| && ParseUnary(num, s, TokAt(s, i)) == (x, TokAt(s, j)) && !TokAt(s, j).cur.SignTok?
    ensures ParseExpr(num, s, TokAt(s, i), min) == (x, TokAt(s, j))
  {
    hide ParseUnary;
    hide NextTok;
  }

  lemma ClimbsOnce(num: string -> real, s: string, st: State, x: W.Expr, c: char, y: W.Expr, end: State)
    requires Within(s, st) && Within(s, end) && st.ok && st.cur == SignTok(One(c)) && Prec(One(c)) > 0
    requires !end.cur.SignTok?
    requires ParseExpr(num, s, Adv(s, st), if c == '^' then 5 else Prec(One(c)) + 1) == (y, end)
    ensures ParseRest(num, s, st, x, 1) == (W.Bin(BinOf(One(c)), x, y), end)
  {
    hide Adv;
    hide ParseExpr;
    hide Prec;
    hide BinOf;
  }

  lemma UnaryThenRest(num: string -> real, s: string, st: State, x: W.Expr, mid: State, min: nat)
    requires Within(s, st) && Within(s, mid) && ParseUnary(num, s, st) == (x, mid)
    ensures ParseExpr(num, s, st, min) == ParseRest(num, s, mid, x, min)
  {
    hide ParseUnary;
    hide ParseRest;
  }

  /** Two operands around a sign, before a closing parenthesis. */
  lemma OperandsJoined(num: string -> real, s: string, i: nat, j: nat, k: nat, c: char, x: W.Expr, y: W.Expr)
    requires i <= |s| && j < |s| && k <= |s|
    requires ParseUnary(num, s, TokAt(s, i)) == (x, TokAt(s, j)) && TokAt(s, j).cur == SignTok(One(c))
    requires TokAt(s, j).at == j + 1
    requires Prec(One(c)) > 0 && ParseUnary(num, s, TokAt(s, j + 1)) == (y, TokAt(s, k)) && TokAt(s, k).cur == Close
    ensures ParseExpr(num, s, TokAt(s, i), 1) == (W.Bin(BinOf(One(c)), x, y), TokAt(s, k))
  {
    hide *;
    AfterToken(s, j);
    OperandAlone(num, s, j + 1, k, y, if c == '^' then 5 else Prec(One(c)) + 1);
    TokFine(s, j);
    UnaryThenRest(num, s, TokAt(s, i), x, TokAt(s, j), 1);
    ClimbsOnce(num, s, TokAt(s, j), x, c, y, TokAt(s, k));
  }

  lemma TokFine(s: string, i: nat)
    requires i <= |s|
    ensures TokAt(s, i).ok
  {
  }

  /** From i to j one operand is read, x. */
  predicate Operand(num: string -> real, s: string, i: nat, j: nat, x: W.Expr) {
    i <= |s| && j <= |s| && ParseUnary(num, s, TokAt(s, i)) == (x, TokAt(s, j))
  }

  lemma OperandIs(num: string -> real, s: string, i: nat, j: nat, x: W.Expr)
    requires i <= |s| && j <= |s| && Stop(s, j) && ParsePrimary(num, s, TokAt(s, i)) == (x, TokAt(s, j))
    requires !TokAt(s, i).cur.SignTok?
    ensures Operand(num, s, i, j, x)
  {
    PrimaryOnly(num, s, i, j, x);
    hide ParsePrimary;
    hide ParseUnary;
    hide TokAt;
    hide Stop;
  }

  lemma LeafNum(num: string -> real, s: string, i: nat, j: nat, t: string)
    requires i <= |s| && j <= |s| && NextTok(s, i) == (NumTok(t), j) && Stop(s, j)
    ensures Operand(num, s, i, j, W.Num(num(t)))
  {
    AfterToken(s, i);
    hide NextTok;
    hide Stop;
    assert ParsePrimary(num, s, TokAt(s, i)) == (W.Num(num(t)), TokAt(s, j));
    OperandIs(num, s, i, j, W.Num(num(t)));
  }

  lemma LeafRef(num: string -> real, s: string, i: nat, j: nat, t: string)
    requires i <= |s| && j <= |s| && NextTok(s, i) == (RefTok(t), j) && Stop(s, j)
    ensures Operand(num, s, i, j, MakeRef(t))
  {
    AfterToken(s, i);
    hide NextTok;
    hide MakeRef;
    hide Stop;
    assert ParsePrimary(num, s, TokAt(s, i)) == (MakeRef(t), TokAt(s, j));
    OperandIs(num, s, i, j, MakeRef(t));
  }

  lemma InParens(num: string -> real, s: string, i: nat, k: nat, x: W.Expr)
    requires i < |s| && k < |s| && TokAt(s, i).cur == Open && TokAt(s, i).at == i + 1 && Stop(s, k + 1)
    requires ParseExpr(num, s, TokAt(s, i + 1), 1) == (x, TokAt(s, k)) && TokAt(s, k).cur == Close
    requires TokAt(s, k).at == k + 1
    ensures Operand(num, s, i, k + 1, x)
  {
    AfterToken(s, i);
    AfterToken(s, k);
    hide NextTok;
    hide ParseExpr;
    hide Stop;
    assert ParsePrimary(num, s, TokAt(s, i)) == (x, TokAt(s, k + 1));
    OperandIs(num, s, i, k + 1, x);
  }

  lemma PrimaryCall(num: string -> real, s: string, st: State, name: string, args: seq<W.Expr>, end: State)
    requires Within(s, st) && st.cur == IdentTok(name) && Adv(s, st).cur == Open && Within(s, end) && end.cur == Close
    requires var inner := Adv(s, Adv(s, st));
      if inner.cur == Close then args == [] && end == inner else ParseArgs(num, s, inner) == (args, end)
    ensures ParsePrimary(num, s, st) == (W.Call(FnOf(Upper(name)), args), Adv(s, end))
  {
    hide Adv;
    hide ParseArgs;
    hide ParseExpr;
    hide FnOf;
    hide Upper;
  }

  lemma CallBegins(s: string, i: nat, m: nat, name: string)
    requires i < m < |s| && TokAt(s, i).cur == IdentTok(name) && TokAt(s, i).at == m
    requires TokAt(s, m).cur == Open && TokAt(s, m).at == m + 1
    ensures Adv(s, TokAt(s, i)) == TokAt(s, m) && Adv(s, TokAt(s, m)) == TokAt(s, m + 1)
  {
    AfterToken(s, i);
    AfterToken(s, m);
  }

  lemma CallRead(num: string -> real, s: string, i: nat, m: nat, k: nat, name: string, args: seq<W.Expr>)
    requires i < m < k < |s| && TokAt(s, i).cur == IdentTok(name) && TokAt(s, i).at == m && Stop(s, k + 1)
    requires TokAt(s, m).cur == Open && TokAt(s, m).at == m + 1 && TokAt(s, k).cur == Close && TokAt(s, k).at == k + 1
    requires TokAt(s, m + 1).cur != Close && ParseArgs(num, s, TokAt(s, m + 1)) == (args, TokAt(s, k))
    ensures Operand(num, s, i, k + 1, W.Call(FnOf(Upper(name)), args))
  {
    hide *;
    CallBegins(s, i, m, name);
    AfterToken(s, k);
    PrimaryCall(num, s, TokAt(s, i), name, args, TokAt(s, k));
    OperandIs(num, s, i, k + 1, W.Call(FnOf(Upper(name)), args));
  }

  lemma EmptyCallRead(num: string -> real, s: string, i: nat, m: nat, name: string)
    requires i < m && m + 1 < |s| && TokAt(s, i).cur == IdentTok(name) && TokAt(s, i).at == m && Stop(s, m + 2)
    requires TokAt(s, m).cur == Open && TokAt(s, m).at == m + 1
    requires TokAt(s, m + 1).cur == Close && TokAt(s, m + 1).at == m + 2
    ensures Operand(num, s, i, m + 2, W.Call(FnOf(Upper(name)), []))
  {
    hide *;
    CallBegins(s, i, m, name);
    AfterToken(s, m + 1);
    PrimaryCall(num, s, TokAt(s, i), name, [], TokAt(s, m + 1));
    OperandIs(num, s, i, m + 2, W.Call(FnOf(Upper(name)), []));
  }

  lemma MinusRead(num: string -> real, s: string, i: nat, j: nat, x: W.Expr)
    requires i < |s| && TokAt(s, i).cur == SignTok(One('-')) && TokAt(s, i).at == i + 1 && Operand(num, s, i + 1, j, x)
    ensures Operand(num, s, i, j, W.Un(W.Negate, x))
  {
    AfterToken(s, i);
    hide NextTok;
    hide ParsePrimary;
  }

  /** Wherever the text of e stands before a stop, an operand is parsed: e, and all of it. */
  lemma {:induction false} ParsesTerm(num: string -> real, s: string, i: nat, e: Term)
    requires ReadsDecimals(num) && Encodable(e) && TextAt(s, i, Text(e)) && Stop(s, i + |Text(e)|)
    ensures Operand(num, s, i, i + |Text(e)|, ExprOf(e))
    decreases e, 0
  {
    hide Operand;
    hide TextAt;
    hide Stop;
    hide A1Text;
    hide Decimal;
    hide FnName;
    hide SignChar;
    hide Joined;
    hide ReadsDecimals;
    match e
    case Lit(v) => ParsesLit(num, s, i, v);
    case Place(r, c) => ParsesCell(num, s, i, r, c);
    case Block(r, c, r2, c2) => ParsesBlock(num, s, i, r, c, r2, c2);
    case Infix(code, a, b) =>
      ParsesInfix(num, s, i, code, a, b);
      CodeMeaning(code);
    case Negated(a) => ParsesMinus(num, s, i, a);
    case Apply(ift, args) =>
      ParsesApply(num, s, i, ift, args);
      NumberMeaning(ift);
  }

  lemma ParsesLit(num: string -> real, s: string, i: nat, v: nat)
    requires ReadsDecimals(num) && TextAt(s, i, Decimal(v)) && Stop(s, i + |Decimal(v)|)
    ensures Operand(num, s, i, i + |Decimal(v)|, W.Num(v as real))
  {
    hide Operand;
    hide NextTok;
    DecimalRoundTrip(v);
    hide Decimal;
    LexNumber(s, i, Decimal(v));
    LeafNum(num, s, i, i + |Decimal(v)|, Decimal(v));
  }

  lemma ParsesCell(num: string -> real, s: string, i: nat, r: nat, c: nat)
    requires TextAt(s, i, A1Text(r, c)) && Stop(s, i + |A1Text(r, c)|)
    ensures Operand(num, s, i, i + |A1Text(r, c)|, W.CellRef("", r, c))
  {
    hide Operand;
    hide NextTok;
    hide A1Text;
    hide MakeRef;
    var m := A1Shape(r, c);
    hide LettersDigits;
    LexCell(s, i, A1Text(r, c), m);
    CellBack(r, c);
    LeafRef(num, s, i, i + |A1Text(r, c)|, A1Text(r, c));
  }

  lemma ParsesBlock(num: string -> real, s: string, i: nat, r: nat, c: nat, r2: nat, c2: nat)
    requires var t := A1Text(r, c) + ":" + A1Text(r2, c2); TextAt(s, i, t) && Stop(s, i + |t|)
    ensures var t := A1Text(r, c) + ":" + A1Text(r2, c2); Operand(num, s, i, i + |t|, W.RangeRef("", r, c, r2, c2))
  {
    hide Operand;
    hide NextTok;
    hide A1Text;
    hide MakeRef;
    var m := A1Shape(r, c);
    var n := A1Shape(r2, c2);
    hide LettersDigits;
    var t := A1Text(r, c) + ":" + A1Text(r2, c2);
    LexBlock(s, i, A1Text(r, c), m, A1Text(r2, c2), n);
    BlockBack(r, c, r2, c2);
    LeafRef(num, s, i, i + |t|, t);
  }

  lemma ParsesInfix(num: string -> real, s: string, i: nat, code: nat, a: Term, b: Term)
    requires ReadsDecimals(num) && 3 <= code <= 7 && Encodable(a) && Encodable(b)
    requires var t := "(" + Text(a) + [SignChar(code)] + Text(b) + ")"; TextAt(s, i, t) && Stop(s, i + |t|)
    ensures var t := "(" + Text(a) + [SignChar(code)] + Text(b) + ")";
      Operand(num, s, i, i + |t|, W.Bin(BinOf(One(SignChar(code))), ExprOf(a), ExprOf(b)))
    decreases Infix(code, a, b), -1
  {
    hide *;
    var x, y, c := Text(a), Text(b), SignChar(code);
    var j, k := i + 1 + |x|, i + 2 + |x| + |y|;
    SignBinds(code);
    FivePieces(s, i, x, c, y);
    SignSafe(code);
    TokChar(s, i);
    TokChar(s, j);
    TokChar(s, k);
    StopAt(s, j);
    StopAt(s, k);
    ParsesTerm(num, s, i + 1, a);
    ParsesTerm(num, s, j + 1, b);
    OperandMeans(num, s, i + 1, j, ExprOf(a));
    OperandMeans(num, s, j + 1, k, ExprOf(b));
    OperandsJoined(num, s, i + 1, j, k, c, ExprOf(a), ExprOf(b));
    InParens(num, s, i, k, W.Bin(BinOf(One(c)), ExprOf(a), ExprOf(b)));
  }

  lemma StopAt(s: string, j: nat)
    requires j < |s| && s[j] in {')', ',', '+', '-', '*', '/', '^'}
    ensures Stop(s, j)
  {
  }

  lemma OperandMeans(num: string -> real, s: string, i: nat, j: nat, x: W.Expr)
    requires Operand(num, s, i, j, x)
    ensures i <= |s| && j <= |s| && ParseUnary(num, s, TokAt(s, i)) == (x, TokAt(s, j))
  {
  }

  lemma SignSafe(code: nat)
    requires 3 <= code <= 7
    ensures SignChar(code) in {'(', ')', ',', '+', '-', '*', '/', '^'} && SignChar(code) !in {'(', ')', ','}
  {
  }

  lemma FivePieces(s: string, i: nat, x: string, c: char, y: string)
    requires TextAt(s, i, "(" + x + [c] + y + ")")
    ensures var j, k := i + 1 + |x|, i + 2 + |x| + |y|;
      && k < |s| && s[i] == '(' && TextAt(s, i + 1, x) && s[j] == c && TextAt(s, j + 1, y) && s[k] == ')'
  {
    TextSplit(s, i, "(" + x + [c] + y, ")");
    TextSplit(s, i, "(" + x + [c], y);
    TextSplit(s, i, "(" + x, [c]);
    TextSplit(s, i, "(", x);
    TextChar(s, i, "(", 0);
    TextChar(s, i + 1 + |x|, [c], 0);
    TextChar(s, i + 2 + |x| + |y|, ")", 0);
  }

  lemma ParsesMinus(num: string -> real, s: string, i: nat, a: Term)
    requires ReadsDecimals(num) && Encodable(a) && TextAt(s, i, "-" + Text(a)) && Stop(s, i + |"-" + Text(a)|)
    ensures Operand(num, s, i, i + |"-" + Text(a)|, W.Un(W.Negate, ExprOf(a)))
    decreases Negated(a), -1
  {
    hide Operand;
    hide NextTok;
    hide Text;
    hide ExprOf;
    TextSplit(s, i, "-", Text(a));
    TextChar(s, i, "-", 0);
    hide TextAt;
    TokChar(s, i);
    ParsesTerm(num, s, i + 1, a);
    MinusRead(num, s, i, i + 1 + |Text(a)|, ExprOf(a));
  }

  lemma NameShape(ift: nat)
    requires FnName(ift).Some?
    ensures AllCapitals(FnName(ift).value)
  {
  }

  lemma ParsesApply(num: string -> real, s: string, i: nat, ift: nat, args: seq<Term>)
    requires ReadsDecimals(num) && FnName(ift).Some? && forall j :: 0 <= j < |args| ==> Encodable(args[j])
    requires var t := FnName(ift).value + "(" + Joined(Texts(args)) + ")"; TextAt(s, i, t) && Stop(s, i + |t|)
    ensures var t := FnName(ift).value + "(" + Joined(Texts(args)) + ")";
      Operand(num, s, i, i + |t|, W.Call(FnOf(FnName(ift).value), ExprsOf(args)))
    decreases Apply(ift, args), -1
  {
    hide *;
    var t, x := FnName(ift).value, Joined(Texts(args));
    var m, k := i + |t|, i + |t| + 1 + |x|;
    NameShape(ift);
    UpperName(t);
    CallPieces(s, i, t, x);
    LexName(s, i, t);
    TokIs(s, i);
    TokChar(s, m);
    TokChar(s, k);
    if |args| == 0 {
      NothingJoined(args);
      EmptyCallRead(num, s, i, m, t);
    } else {
      ParsesArgs(num, s, m + 1, args, k);
      CallRead(num, s, i, m, k, t, ExprsOf(args));
    }
  }

  lemma TokIs(s: string, i: nat)
    requires i <= |s|
    ensures TokAt(s, i) == State(NextTok(s, i).0, NextTok(s, i).1, true)
  {
  }

  lemma NothingJoined(args: seq<Term>)
    requires |args| == 0
    ensures Joined(Texts(args)) == "" && ExprsOf(args) == []
  {
  }

  lemma UpperName(t: string)
    requires AllCapitals(t)
    ensures Upper(t) == t && |t| > 0
  {
    UpperSame(t);
  }

  lemma CallPieces(s: string, i: nat, t: string, x: string)
    requires TextAt(s, i, t + "(" + x + ")")
    ensures var m, k := i + |t|, i + |t| + 1 + |x|;
      k < |s| && TextAt(s, i, t) && s[m] == '(' && TextAt(s, m + 1, x) && s[k] == ')'
  {
    TextSplit(s, i, t + "(" + x, ")");
    TextSplit(s, i, t + "(", x);
    TextSplit(s, i, t, "(");
    TextChar(s, i + |t|, "(", 0);
    TextChar(s, i + |t| + 1 + |x|, ")", 0);
  }

  lemma JoinedSteps(ts: seq<string>)
    requires |ts| > 0
    ensures Joined(ts) == if |ts| == 1 then ts[0] else ts[0] + "," + Joined(ts[1..])
  {
  }

  lemma TextsTail(args: seq<Term>)
    requires |args| > 0 && forall j :: 0 <= j < |args| ==> Encodable(args[j])
    ensures Texts(args)[1..] == Texts(args[1..])
  {
    hide *;
  }

  lemma ExprsTail(args: seq<Term>)
    requires |args| > 0 && forall j :: 0 <= j < |args| ==> Encodable(args[j])
    ensures ExprsOf(args) == [ExprOf(args[0])] + ExprsOf(args[1..])
    ensures |args| == 1 ==> ExprsOf(args) == [ExprOf(args[0])]
  {
    hide *;
  }

  lemma JoinedTexts(args: seq<Term>)
    requires |args| > 0 && forall j :: 0 <= j < |args| ==> Encodable(args[j])
    ensures |args| == 1 ==> Joined(Texts(args)) == Text(args[0])
    ensures |args| > 1 ==> Joined(Texts(args)) == Text(args[0]) + "," + Joined(Texts(args[1..]))
  {
    hide *;
    JoinedSteps(Texts(args));
    TextsTail(args);
  }

  lemma ArgPieces(s: string, i: nat, x: string, y: string)
    requires TextAt(s, i, x + "," + y)
    ensures var j := i + |x|; j < |s| && TextAt(s, i, x) && s[j] == ',' && TextAt(s, j + 1, y)
  {
    TextSplit(s, i, x + ",", y);
    TextSplit(s, i, x, ",");
    TextChar(s, i + |x|, ",", 0);
  }

  /** A comma-separated list up to the closing parenthesis; it does not begin with one. */
  lemma ParsesArgs(num: string -> real, s: string, i: nat, args: seq<Term>, k: nat)
    requires ReadsDecimals(num) && |args| > 0 && forall j :: 0 <= j < |args| ==> Encodable(args[j])
    requires TextAt(s, i, Joined(Texts(args))) && k == i + |Joined(Texts(args))| < |s| && s[k] == ')'
    ensures i <= |s| && TokAt(s, i).cur != Close && ParseArgs(num, s, TokAt(s, i)) == (ExprsOf(args), TokAt(s, k))
    decreases args, 2
  {
    hide *;
    var x, a := Text(args[0]), ExprOf(args[0]);
    JoinedTexts(args);
    ExprsTail(args);
    TokChar(s, k);
    StopAt(s, k);
    if |args| == 1 {
      ParsesTerm(num, s, i, args[0]);
      OperandMeans(num, s, i, k, a);
      NotClose(num, s, i, k, a);
      OperandAlone(num, s, i, k, a, 1);
      LastArg(num, s, i, k, a);
    } else {
      var rest, j := args[1..], i + |x|;
      ArgPieces(s, i, x, Joined(Texts(rest)));
      TokChar(s, j);
      StopAt(s, j);
      ParsesTerm(num, s, i, args[0]);
      OperandMeans(num, s, i, j, a);
      NotClose(num, s, i, j, a);
      OperandAlone(num, s, i, j, a, 1);
      ParsesArgs(num, s, j + 1, rest, k);
      MoreArgs(num, s, i, j, k, a, ExprsOf(rest));
    }
  }

  lemma LastArg(num: string -> real, s: string, i: nat, k: nat, a: W.Expr)
    requires i <= |s| && k <= |s| && ParseExpr(num, s, TokAt(s, i), 1) == (a, TokAt(s, k)) && TokAt(s, k).cur != Comma
    ensures ParseArgs(num, s, TokAt(s, i)) == ([a], TokAt(s, k))
  {
    hide NextTok;
    hide ParseExpr;
  }

  lemma MoreArgs(num: string -> real, s: string, i: nat, j: nat, k: nat, a: W.Expr, rest: seq<W.Expr>)
    requires i <= |s| && j < |s| && k <= |s| && ParseExpr(num, s, TokAt(s, i), 1) == (a, TokAt(s, j))
    requires TokAt(s, j).cur == Comma && TokAt(s, j).at == j + 1
    requires ParseArgs(num, s, TokAt(s, j + 1)) == (rest, TokAt(s, k))
    ensures ParseArgs(num, s, TokAt(s, i)) == ([a] + rest, TokAt(s, k))
  {
    AfterToken(s, j);
    hide NextTok;
    hide ParseExpr;
  }

  lemma NotClose(num: string -> real, s: string, i: nat, j: nat, x: W.Expr)
    requires i <= |s| && j <= |s| && ParseUnary(num, s, TokAt(s, i)) == (x, TokAt(s, j))
    ensures TokAt(s, i).cur != Close
  {
    hide NextTok;
  }

  /** Decoding the postfix form of an expression and parsing the text gives the expression back. */
  lemma PostfixRoundTrip(num: string -> real, real8: seq<Byte> -> string, e: Term)
    requires ReadsDecimals(num) && Encodable(e)
    ensures Decoded(real8, Postfix(e)).Some?
    ensures ParsedFormula(num, Decoded(real8, Postfix(e)).value) == Some(ExprOf(e))
  {
    hide *;
    DecodedText(real8, e);
    var s := Text(e);
    WholeText(s);
    ParsesTerm(num, s, 0, e);
    OperandMeans(num, s, 0, |s|, ExprOf(e));
    EndOfText(s);
    OperandAlone(num, s, 0, |s|, ExprOf(e), 1);
    TextStarts(e);
    FormulaIs(num, s, ExprOf(e));
  }

  lemma WholeText(s: string)
    ensures TextAt(s, 0, s) && Stop(s, |s|)
  {
    assert s[0..0 + |s|] == s;
  }

  lemma FormulaIs(num: string -> real, s: string, x: W.Expr)
    requires |s| > 0 && s[0] != '=' && ParseExpr(num, s, TokAt(s, 0), 1) == (x, State(End, |s|, true))
    ensures ParsedFormula(num, s) == Some(x)
  {
    FirstToken(s);
    hide TokAt;
    hide Adv;
    hide ParseExpr;
  }

  lemma TextStarts(e: Term)
    requires Encodable(e)
    ensures |Text(e)| > 0 && Text(e)[0] != '='
  {
    match e
    case Lit(v) => DecimalRoundTrip(v);
    case Place(r, c) => LettersRoundTrip(c + 1);
    case Block(r, c, r2, c2) => LettersRoundTrip(c + 1);
    case Apply(ift, _) => NameShape(ift);
    case _ =>
  }

  lemma EndOfText(s: string)
    ensures TokAt(s, |s|) == State(End, |s|, true)
  {
  }

  lemma FirstToken(s: string)
    ensures Adv(s, State(End, 0, true)) == TokAt(s, 0)
  {
    hide NextTok;
  }
}
