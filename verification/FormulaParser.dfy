/** The lexer and the parser as they run, one cursor and one current token, against their functions. */
module FormulaParser {
  import opened Options
  import opened Addresses
  import opened Workbooks
  import L = Lexer
  import opened Formulas

  lemma Around(s: string, a: nat, b: nat, c: nat)
    requires a <= b < c <= |s|
    ensures s[a..b] + [s[b]] + s[b + 1..c] == s[a..c]
  {
  }

  predicate WordAt(s: string, i: nat, m: nat) {
    i < m <= |s| && (IsLetter(s[i]) || s[i] == '$' || s[i] == '_') && L.Run(s, i, L.IsWord) == m
  }

  lemma WordMoves(s: string, i: nat)
    requires i < |s| && (IsLetter(s[i]) || s[i] == '$' || s[i] == '_')
    ensures WordAt(s, i, L.Run(s, i, L.IsWord))
  {
  }

  lemma WordEnds(s: string, i: nat, m: nat)
    requires WordAt(s, i, m)
    ensures i < m <= |s|
  {
  }

  lemma SheetWord(s: string, i: nat, m: nat)
    requires WordAt(s, i, m) && m < |s| && s[m] == '!'
    ensures var e := L.Run(s, m + 1, L.IsRangeChar); L.WordTok(s, i) == (L.RefTok(s[i..e]), e)
  {
  }

  lemma BlockWord(s: string, i: nat, m: nat)
    requires WordAt(s, i, m) && m < |s| && s[m] == ':' && L.LooksRef(s[i..m]) && L.RefStart(s, m + 1)
    ensures var e := L.Run(s, m + 1, L.IsRefChar); L.WordTok(s, i) == (L.RefTok(s[i..e]), e)
  {
  }

  lemma PlainWord(s: string, i: nat, m: nat)
    requires WordAt(s, i, m) && (m < |s| ==> s[m] != '!')
    requires !(m < |s| && s[m] == ':' && L.LooksRef(s[i..m]) && L.RefStart(s, m + 1))
    ensures var e := L.Run(s, m, L.IsBlank);
      L.WordTok(s, i) == if e < |s| && s[e] == '(' then (L.IdentTok(s[i..m]), e)
                         else if L.LooksRef(s[i..m]) then (L.RefTok(s[i..m]), m) else (L.IdentTok(s[i..m]), m)
  {
  }

  class Lexer {
    const s: string
    var i: nat

    ghost predicate Valid()
      reads this
    {
      i <= |s|
    }

    constructor (src: string)
      ensures Valid() && s == src && i == 0
    {
      s, i := src, 0;
    }

    /** The characters in p from the cursor on. */
    method Take(p: char -> bool) returns (taken: string)
      requires Valid()
      modifies this`i
      ensures Valid() && i == L.Run(s, old(i), p) && taken == s[old(i)..i]
    {
      taken := "";
      while i < |s| && p(s[i])
        invariant old(i) <= i <= |s| && taken == s[old(i)..i] && L.Run(s, i, p) == L.Run(s, old(i), p)
        decreases |s| - i
      {
        taken := taken + [s[i]];
        i := i + 1;
      }
    }

    method StringTok() returns (t: L.Tok)
      requires Valid() && i < |s|
      modifies this`i
      ensures Valid() && (t, i) == (L.StrTok(L.StringFrom(s, old(i) + 1).0), L.StringFrom(s, old(i) + 1).1)
    {
      var out := "";
      i := i + 1;
      assert out + L.StringFrom(s, i).0 == L.StringFrom(s, i).0;
      while i < |s|
        invariant i <= |s|
        invariant L.StringFrom(s, old(i) + 1) == (out + L.StringFrom(s, i).0, L.StringFrom(s, i).1)
        decreases |s| - i
      {
        if s[i] == '"' {
          if i + 1 < |s| && s[i + 1] == '"' {
            assert out + (['"'] + L.StringFrom(s, i + 2).0) == (out + ['"']) + L.StringFrom(s, i + 2).0;
            out, i := out + ['"'], i + 2;
          } else {
            i := i + 1;
            assert out + "" == out;
            return L.StrTok(out);
          }
        } else {
          assert out + ([s[i]] + L.StringFrom(s, i + 1).0) == (out + [s[i]]) + L.StringFrom(s, i + 1).0;
          out, i := out + [s[i]], i + 1;
        }
      }
      assert out + "" == out;
      t := L.StrTok(out);
    }

    method NumberTok() returns (t: L.Tok)
      requires Valid() && i < |s|
      modifies this`i
      ensures Valid() && (t, i) == (L.NumTok(s[old(i)..L.NumberEnd(s, old(i))]), L.NumberEnd(s, old(i)))
    {
      hide L.Run;
      var start := i;
      var _ := Take(L.IsNumChar);
      if i < |s| && (s[i] == 'e' || s[i] == 'E') {
        i := i + 1;
        if i < |s| && (s[i] == '+' || s[i] == '-') {
          i := i + 1;
        }
        var _ := Take(IsDigit);
      }
      t := L.NumTok(s[start..i]);
    }

    method SheetRef() returns (t: L.Tok)
      requires Valid() && i < |s|
      modifies this`i
      ensures Valid() && (t, i) == (L.RefTok(L.QuotedRef(s, old(i)).0), L.QuotedRef(s, old(i)).1)
    {
      hide L.Run;
      i := i + 1;
      var name := Take(L.NotQuote);
      if i < |s| {
        i := i + 1;
      }
      var out := ['\''] + name + ['\''];
      if i < |s| && s[i] == '!' {
        i := i + 1;
        var body := Take(L.IsRangeChar);
        assert s[i - |body| - 1..i] == ['!'] + body;
        out := out + (['!'] + body);
      }
      t := L.RefTok(out);
    }

    /** The mark at the cursor and the characters in p after it, joined to the word. */
    method Onward(word: string, ghost start: nat, p: char -> bool) returns (longer: string)
      requires Valid() && start <= i < |s| && word == s[start..i]
      modifies this`i
      ensures Valid() && i == L.Run(s, old(i) + 1, p) && longer == s[start..i]
    {
      ghost var m := i;
      var mark := s[i];
      i := i + 1;
      var body := Take(p);
      Around(s, start, m, i);
      longer := word + [mark] + body;
    }

    /** A function before a parenthesis; else the blanks are put back. */
    method Named(word: string) returns (t: L.Tok)
      requires Valid()
      modifies this`i
      ensures Valid() && (t, i) == (var e := L.Run(s, old(i), L.IsBlank);
        if e < |s| && s[e] == '(' then (L.IdentTok(word), e)
        else (if L.LooksRef(word) then L.RefTok(word) else L.IdentTok(word), old(i)))
    {
      hide L.LooksRef;
      hide L.Run;
      var save := i;
      var _ := Take(L.IsBlank);
      if i < |s| && s[i] == '(' {
        t := L.IdentTok(word);
      } else {
        i := save;
        t := if L.LooksRef(word) then L.RefTok(word) else L.IdentTok(word);
      }
    }

    /** What follows a word makes it a reference to another sheet, a range, or a plain word. */
    method Marked(word: string, ghost start: nat) returns (t: L.Tok)
      requires Valid() && WordAt(s, start, i) && word == s[start..i]
      modifies this`i
      ensures Valid() && (t, i) == L.WordTok(s, start)
    {
      hide *;
      assert start < i <= |s| by { WordEnds(s, start, i); }
      if i < |s| && s[i] == '!' {
        SheetWord(s, start, i);
        var longer := Onward(word, start, L.IsRangeChar);
        t := L.RefTok(longer);
      } else if L.LooksRef(word) && i < |s| && s[i] == ':' && L.RefStart(s, i + 1) {
        BlockWord(s, start, i);
        var longer := Onward(word, start, L.IsRefChar);
        t := L.RefTok(longer);
      } else {
        PlainWord(s, start, i);
        t := Named(word);
      }
    }

    method IdentOrRef() returns (t: L.Tok)
      requires Valid() && i < |s| && (IsLetter(s[i]) || s[i] == '$' || s[i] == '_')
      modifies this`i
      ensures Valid() && (t, i) == L.WordTok(s, old(i))
    {
      hide L.Run;
      hide L.WordTok;
      ghost var start := i;
      WordMoves(s, i);
      var word := Take(L.IsWord);
      t := Marked(word, start);
    }

    method OpTok() returns (t: L.Tok)
      requires Valid() && i < |s|
      modifies this`i
      ensures Valid() && (t, i) == (L.SignTok(L.SignAt(s, old(i)).0), L.SignAt(s, old(i)).1)
    {
      var c := s[i];
      if (c == '<' || c == '>') && i + 1 < |s| && s[i + 1] == '=' {
        i := i + 2;
        return L.SignTok(L.Two(c, '='));
      }
      if c == '<' && i + 1 < |s| && s[i + 1] == '>' {
        i := i + 2;
        return L.SignTok(L.Two('<', '>'));
      }
      i := i + 1;
      t := L.SignTok(L.One(c));
    }

    method Next() returns (t: L.Tok)
      requires Valid()
      modifies this`i
      ensures Valid() && (t, i) == L.NextTok(s, old(i))
    {
      var _ := Take(L.IsBlank);
      if i >= |s| {
        return L.End;
      }
      var c := s[i];
      if c == '(' {
        i := i + 1;
        t := L.Open;
      } else if c == ')' {
        i := i + 1;
        t := L.Close;
      } else if c == ',' {
        i := i + 1;
        t := L.Comma;
      } else if c == '"' {
        t := StringTok();
      } else if c == '\'' {
        t := SheetRef();
      } else if IsDigit(c) || (c == '.' && i + 1 < |s| && IsDigit(s[i + 1])) {
        t := NumberTok();
      } else if IsLetter(c) || c == '$' || c == '_' {
        t := IdentOrRef();
      } else {
        t := OpTok();
      }
    }
  }

  class Parser {
    const lex: Lexer
    const num: string -> real
    var cur: L.Tok
    var ok: bool

    ghost predicate Valid()
      reads this, lex
    {
      lex.Valid()
    }

    /** What is being read. */
    ghost function Now(): (st: State)
      requires Valid()
      reads this, lex
      ensures Within(lex.s, st)
    {
      State(cur, lex.i, ok)
    }

    constructor (num: string -> real, src: string)
      ensures Valid() && fresh(this) && fresh(lex) && lex.s == src && this.num == num
      ensures Now() == Adv(src, State(L.End, 0, true))
    {
      var l := new Lexer(src);
      this.num := num;
      var t := l.Next();
      lex, cur, ok := l, t, true;
    }

    method Advance()
      requires Valid()
      modifies this`cur, lex`i
      ensures Valid() && Now() == Adv(lex.s, old(Now()))
    {
      cur := lex.Next();
    }

    method Fail()
      requires Valid()
      modifies this`ok
      ensures Valid() && Now() == Failed(old(Now()))
    {
      ok := false;
    }

    method ExprFrom(min: nat) returns (lhs: Expr)
      requires Valid()
      modifies this`cur, this`ok, lex`i
      ensures Valid() && (lhs, Now()) == ParseExpr(num, lex.s, old(Now()), min)
      decreases Left(lex.s, Now()), 4
    {
      hide Adv;
      hide ParseUnary;
      hide Prec;
      hide BinOf;
      ghost var whole := ParseExpr(num, lex.s, Now(), min);
      lhs := UnaryFrom();
      while ok && cur.SignTok? && Prec(cur.sign) >= min && Prec(cur.sign) > 0
        invariant Valid() && Left(lex.s, Now()) <= Left(lex.s, old(Now()))
        invariant ParseRest(num, lex.s, Now(), lhs, min) == whole
        decreases Left(lex.s, Now())
      {
        var sign := cur.sign;
        var p := Prec(sign);
        Advance();
        var rhs := ExprFrom(if sign == L.One('^') then 5 else p + 1);
        lhs := Bin(BinOf(sign), lhs, rhs);
      }
    }

    method UnaryFrom() returns (e: Expr)
      requires Valid()
      modifies this`cur, this`ok, lex`i
      ensures Valid() && (e, Now()) == ParseUnary(num, lex.s, old(Now()))
      decreases Left(lex.s, Now()), 3
    {
      hide Adv;
      hide ParsePrimary;
      if IsSign(cur, '-') || IsSign(cur, '+') {
        var op := if IsSign(cur, '-') then Negate else Keep;
        Advance();
        var a := UnaryFrom();
        e := Un(op, a);
      } else {
        ghost var whole := ParseUnary(num, lex.s, Now());
        e := PrimaryFrom();
        while ok && IsSign(cur, '%')
          invariant Valid() && ParsePercents(lex.s, Now(), e) == whole
          decreases Left(lex.s, Now())
        {
          Advance();
          e := Un(Percent, e);
        }
      }
    }

    method PrimaryFrom() returns (e: Expr)
      requires Valid()
      modifies this`cur, this`ok, lex`i
      ensures Valid() && (e, Now()) == ParsePrimary(num, lex.s, old(Now()))
      decreases Left(lex.s, Now()), 2
    {
      hide Adv;
      hide ParseExpr;
      hide ParseArgs;
      hide MakeRef;
      hide FnOf;
      hide Upper;
      match cur
      case NumTok(text) =>
        e := Num(num(text));
        Advance();
      case StrTok(text) =>
        e := Str(text);
        Advance();
      case RefTok(text) =>
        e := MakeRef(text);
        Advance();
      case Open =>
        Advance();
        e := ExprFrom(1);
        if cur == L.Close { Advance(); } else { Fail(); }
      case IdentTok(name) =>
        Advance();
        if cur == L.Open {
          Advance();
          var args := [];
          if cur != L.Close {
            args := ArgsFrom();
          }
          e := Call(FnOf(Upper(name)), args);
          if cur == L.Close { Advance(); } else { Fail(); }
        } else {
          e := NameRef(name);
        }
      case _ =>
        Fail();
        e := NOTHING;
    }

    method ArgsFrom() returns (args: seq<Expr>)
      requires Valid()
      modifies this`cur, this`ok, lex`i
      ensures Valid() && (args, Now()) == ParseArgs(num, lex.s, old(Now()))
      decreases Left(lex.s, Now()), 5
    {
      hide Adv;
      hide ParseExpr;
      hide ParseArgs;
      hide MoreArgs;
      ghost var whole, st := ParseArgs(num, lex.s, Now()), Now();
      ArgsSplit(num, lex.s, st);
      var a := ExprFrom(1);
      args := [a];
      while cur == L.Comma
        invariant Valid() && Left(lex.s, Now()) <= Left(lex.s, old(Now()))
        invariant whole == (args + MoreArgs(num, lex.s, Now()).0, MoreArgs(num, lex.s, Now()).1)
        decreases Left(lex.s, Now())
      {
        ghost var before := args;
        MoreIs(num, lex.s, Now());
        Advance();
        ArgsSplit(num, lex.s, Now());
        a := ExprFrom(1);
        args := args + [a];
        assert before + ([a] + MoreArgs(num, lex.s, Now()).0) == args + MoreArgs(num, lex.s, Now()).0;
      }
      MoreIs(num, lex.s, Now());
      assert args + [] == args;
    }
  }

  /** The arguments after one that has been read. */
  ghost function MoreArgs(num: string -> real, s: string, st: State): (seq<Expr>, State)
    requires Within(s, st)
  {
    if st.cur == L.Comma then ParseArgs(num, s, Adv(s, st)) else ([], st)
  }

  lemma MoreIs(num: string -> real, s: string, st: State)
    requires Within(s, st)
    ensures MoreArgs(num, s, st) == if st.cur == L.Comma then ParseArgs(num, s, Adv(s, st)) else ([], st)
  {
  }

  lemma ArgsSplit(num: string -> real, s: string, st: State)
    requires Within(s, st)
    ensures var (a, next) := ParseExpr(num, s, st, 1);
      ParseArgs(num, s, st) == ([a] + MoreArgs(num, s, next).0, MoreArgs(num, s, next).1)
  {
    hide Adv;
    hide ParseExpr;
    var (a, next) := ParseExpr(num, s, st, 1);
    assert [a] + [] == [a];
  }

  method ParseFormula(num: string -> real, src: string) returns (r: Option<Expr>)
    ensures r == ParsedFormula(num, src)
  {
    var body := if At(src, 0, '=') then src[1..] else src;
    if |body| == 0 {
      return None;
    }
    var p := new Parser(num, body);
    var e := p.ExprFrom(1);
    r := if p.ok && p.cur == L.End then Some(e) else None;
  }
}
