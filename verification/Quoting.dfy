/** The three quoting printers, each against a lexer of the language it prints. */
module Quoting {
  import opened Options

  // ---------- search and replace ----------

  predicate OccursAt(s: string, sub: string, i: int) {
    0 <= i <= |s| && sub <= s[i..]
  }

  /** `indexOf`: the least position where sub occurs, -1 if none. */
  method IndexOf(s: string, sub: string) returns (i: int)
    ensures i == -1 || OccursAt(s, sub, i)
    ensures forall j :: 0 <= j < (if i == -1 then |s| + 1 else i) ==> !OccursAt(s, sub, j)
  {
    i := 0;
    while i + |sub| <= |s|
      invariant 0 <= i <= |s| + 1
      invariant forall j :: 0 <= j < i ==> !OccursAt(s, sub, j)
    {
      assert s[i..][..|sub|] == s[i..i + |sub|];
      if s[i..i + |sub|] == sub { return; }
      i := i + 1;
    }
    i := -1;
  }

  /** Replacement scanning left to right and never looking back: `strings.ReplaceAll` for a non-empty pattern. */
  function Replaced(s: string, pat: string, repl: string): string
    requires pat != ""
  {
    if s == "" then ""
    else if pat <= s then repl + Replaced(s[|pat|..], pat, repl)
    else [s[0]] + Replaced(s[1..], pat, repl)
  }

  lemma AppendAssoc(a: string, b: string, c: string)
    ensures a + (b + c) == (a + b) + c
  {
  }

  lemma {:induction false} ReplacedSkips(s: string, pat: string, repl: string, i: nat)
    requires pat != "" && i <= |s| && forall j :: 0 <= j < i ==> !OccursAt(s, pat, j)
    ensures Replaced(s, pat, repl) == s[..i] + Replaced(s[i..], pat, repl)
  {
    if i > 0 {
      var t := s[1..];
      assert s[0..] == s && !OccursAt(s, pat, 0);
      forall j | 0 <= j < i - 1 ensures !OccursAt(t, pat, j) {
        assert t[j..] == s[j + 1..] && !OccursAt(s, pat, j + 1);
      }
      ReplacedSkips(t, pat, repl, i - 1);
      assert t[i - 1..] == s[i..] && [s[0]] + t[..i - 1] == s[..i];
      AppendAssoc([s[0]], t[..i - 1], Replaced(s[i..], pat, repl));
    } else {
      assert s[0..] == s;
    }
  }

  lemma ReplacedNothing(s: string, pat: string, repl: string)
    requires pat != "" && forall j :: 0 <= j <= |s| ==> !OccursAt(s, pat, j)
    ensures Replaced(s, pat, repl) == s
  {
    ReplacedSkips(s, pat, repl, |s|);
    assert s[|s|..] == "";
  }

  lemma {:induction false} ReplacedFirst(s: string, pat: string, repl: string, i: nat)
    requires pat != "" && OccursAt(s, pat, i) && forall j :: 0 <= j < i ==> !OccursAt(s, pat, j)
    ensures i + |pat| <= |s| && Replaced(s, pat, repl) == (s[..i] + repl) + Replaced(s[i + |pat|..], pat, repl)
  {
    ReplacedSkips(s, pat, repl, i);
    assert s[i..][|pat|..] == s[i + |pat|..];
    AppendAssoc(s[..i], repl, Replaced(s[i + |pat|..], pat, repl));
  }

  /** The hand-written `replaceAll`; for the empty pattern its loop would never end. */
  method ReplaceAll(str: string, pat: string, repl: string) returns (out: string)
    requires pat != ""
    ensures out == Replaced(str, pat, repl)
  {
    hide Replaced;
    out := "";
    var s := str;
    while true
      invariant out + Replaced(s, pat, repl) == Replaced(str, pat, repl)
      decreases |s|
    {
      var i := IndexOf(s, pat);
      if i < 0 {
        ReplacedNothing(s, pat, repl);
        return out + s;
      }
      ReplacedFirst(s, pat, repl, i);
      AppendAssoc(out, s[..i] + repl, Replaced(s[i + |pat|..], pat, repl));
      out := out + (s[..i] + repl);
      s := s[i + |pat|..];
    }
  }

  // ---------- POSIX shell ----------

  /** Reading a word character by character: quotes are removed, and an unquoted blank, newline or operator
      ends it (sections 2.2.1 to 2.2.3 of the POSIX.1-2017 Shell Command Language). Inside double quotes only
      backslash before `$`, backquote, `"`, backslash or newline is special here; expansions are not modelled. */
  datatype Mode = Bare | Single | Double

  predicate EndsWord(c: char) { c in " \t\n|&;<>()" }

  function Cons(c: char, r: Option<(string, string)>): Option<(string, string)> {
    match r
    case Some((w, rest)) => Some(([c] + w, rest))
    case None => None
  }

  /** The word's value and what follows it; None for an unterminated quote or a trailing backslash. */
  function ShellWord(s: string, mode: Mode): Option<(string, string)> {
    if s == "" then (if mode.Bare? then Some(("", "")) else None)
    else
      var c := s[0];
      match mode
      case Single =>
        if c == '\'' then ShellWord(s[1..], Bare) else Cons(c, ShellWord(s[1..], Single))
      case Double =>
        if c == '"' then ShellWord(s[1..], Bare)
        else if c == '\\' && |s| > 1 && s[1] in "$`\"\\" then Cons(s[1], ShellWord(s[2..], Double))
        else if c == '\\' && |s| > 1 && s[1] == '\n' then ShellWord(s[2..], Double)
        else Cons(c, ShellWord(s[1..], Double))
      case Bare =>
        if EndsWord(c) then Some(("", s))
        else if c == '\'' then ShellWord(s[1..], Single)
        else if c == '"' then ShellWord(s[1..], Double)
        else if c == '\\' then
          if |s| == 1 then None
          else if s[1] == '\n' then ShellWord(s[2..], Bare)
          else Cons(s[1], ShellWord(s[2..], Bare))
        else Cons(c, ShellWord(s[1..], Bare))
  }

  function Prefixed(p: string, r: Option<(string, string)>): Option<(string, string)> {
    match r
    case Some((w, rest)) => Some((p + w, rest))
    case None => None
  }

  lemma PrefixedCons(s: string, r: Option<(string, string)>)
    ensures Prefixed(s, r) == if s == "" then r else Cons(s[0], Prefixed(s[1..], r))
  {
    if r.Some? {
      assert s + r.value.0 == if s == "" then r.value.0 else [s[0]] + (s[1..] + r.value.0);
    }
  }

  const ESCAPED_QUOTE: string := "'\\''"

  /** `strings.ReplaceAll` inside single quotes. */
  function ShellQuoted(s: string): string { "'" + Replaced(s, "'", ESCAPED_QUOTE) + "'" }

  /** The CLI's own shellQuote, built on the hand-written replaceAll. */
  method ShellQuote(s: string) returns (q: string)
    ensures q == ShellQuoted(s)
  {
    var body := ReplaceAll(s, "'", ESCAPED_QUOTE);
    q := "'" + body + "'";
  }

  /** Replacing single quotes goes character by character. */
  lemma ReplacedQuote(s: string, repl: string)
    requires s != ""
    ensures Replaced(s, "'", repl) == (if s[0] == '\'' then repl else [s[0]]) + Replaced(s[1..], "'", repl)
  {
    assert s[0] == '\'' <==> "'" <= s;
  }

  /** The escaped quote closes the quotes, adds a quote and opens them again. */
  lemma EscapedQuoteWord(t: string)
    ensures ShellWord(ESCAPED_QUOTE + t, Single) == Cons('\'', ShellWord(t, Single))
  {
    var text := ESCAPED_QUOTE + t;
    assert text[0] == '\'' && text[1] == '\\' && text[2] == '\'' && text[3] == '\'';
    var t1 := text[1..];
    var t3 := t1[2..];
    assert t3[0] == '\'' && t3[1..] == t;
    assert ShellWord(t3, Bare) == ShellWord(t, Single);
    assert ShellWord(t1, Bare) == Cons('\'', ShellWord(t3, Bare));
    assert ShellWord(text, Single) == ShellWord(t1, Bare);
  }

  lemma PlainWord(c: char, t: string)
    requires c != '\''
    ensures ShellWord([c] + t, Single) == Cons(c, ShellWord(t, Single))
  {
    assert ([c] + t)[1..] == t;
  }

  lemma CloseWord(rest: string)
    ensures ShellWord("'" + rest, Single) == ShellWord(rest, Bare)
    ensures ShellWord("'" + rest, Bare) == ShellWord(rest, Single)
  {
    assert ("'" + rest)[1..] == rest;
  }

  lemma {:induction false} InnerWord(s: string, rest: string)
    ensures ShellWord(Replaced(s, "'", ESCAPED_QUOTE) + ("'" + rest), Single) == Prefixed(s, ShellWord(rest, Bare))
  {
    hide ShellWord;
    if s == "" {
      assert Replaced(s, "'", ESCAPED_QUOTE) + ("'" + rest) == "'" + rest;
      CloseWord(rest);
      PrefixedCons(s, ShellWord(rest, Bare));
    } else {
      hide Replaced;
      var tail := Replaced(s[1..], "'", ESCAPED_QUOTE) + ("'" + rest);
      InnerWord(s[1..], rest);
      ReplacedQuote(s, ESCAPED_QUOTE);
      if s[0] == '\'' {
        assert Replaced(s, "'", ESCAPED_QUOTE) + ("'" + rest) == ESCAPED_QUOTE + tail;
        EscapedQuoteWord(tail);
      } else {
        assert Replaced(s, "'", ESCAPED_QUOTE) + ("'" + rest) == [s[0]] + tail;
        PlainWord(s[0], tail);
      }
      PrefixedCons(s, ShellWord(rest, Bare));
    }
  }

  lemma WordEnds(rest: string)
    requires rest == "" || EndsWord(rest[0])
    ensures ShellWord(rest, Bare) == Some(("", rest))
  {
  }

  /** Wherever a word is read, the quoted text contributes exactly s and the reading goes on after it. */
  lemma ShellQuoteRoundTrip(s: string, rest: string)
    ensures ShellWord(ShellQuoted(s) + rest, Bare) == Prefixed(s, ShellWord(rest, Bare))
    ensures rest == "" || EndsWord(rest[0]) ==> ShellWord(ShellQuoted(s) + rest, Bare) == Some((s, rest))
  {
    hide ShellWord, Replaced;
    var body := Replaced(s, "'", ESCAPED_QUOTE);
    InnerWord(s, rest);
    assert ShellQuoted(s) + rest == "'" + (body + ("'" + rest));
    CloseWord(body + ("'" + rest));
    if rest == "" || EndsWord(rest[0]) {
      WordEnds(rest);
      assert s + "" == s;
    }
  }

  // ---------- PostgreSQL ----------

  /** A standard string constant, after its opening quote: a doubled quote is a quote, a single one ends it
      (section 4.1.2.1 of the PostgreSQL manual). */
  function PgRest(s: string): Option<(string, string)> {
    if s == "" then None
    else if s[0] == '\'' then
      if |s| > 1 && s[1] == '\'' then Cons('\'', PgRest(s[2..])) else Some(("", s[1..]))
    else Cons(s[0], PgRest(s[1..]))
  }

  function PgLiteral(s: string): Option<(string, string)> {
    if s != "" && s[0] == '\'' then PgRest(s[1..]) else None
  }

  function SqlQuotePg(s: string): string { "'" + Replaced(s, "'", "''") + "'" }

  lemma PgPlain(c: char, t: string)
    requires c != '\''
    ensures PgRest([c] + t) == Cons(c, PgRest(t))
  {
    assert ([c] + t)[1..] == t;
  }

  lemma PgDoubled(t: string)
    ensures PgRest("''" + t) == Cons('\'', PgRest(t))
  {
    assert ("''" + t)[2..] == t;
  }

  lemma PgShrinks(s: string)
    ensures PgRest(s).Some? ==> |PgRest(s).value.1| < |s|
  {
  }

  lemma PgClose(rest: string)
    ensures rest == "" || rest[0] != '\'' ==> PgRest("'" + rest) == Some(("", rest))
    ensures rest != "" && rest[0] == '\'' && PgRest("'" + rest).Some? ==> |PgRest("'" + rest).value.1| < |rest|
  {
    assert ("'" + rest)[1..] == rest;
    if rest != "" && rest[0] == '\'' {
      assert ("'" + rest)[2..] == rest[1..];
      PgShrinks(rest[1..]);
    }
  }

  /** The quoted text is read as s, and then its closing quote is read with whatever follows. */
  lemma {:induction false} PgInner(s: string, rest: string)
    ensures PgRest(Replaced(s, "'", "''") + ("'" + rest)) == Prefixed(s, PgRest("'" + rest))
  {
    hide PgRest;
    if s == "" {
      assert Replaced(s, "'", "''") + ("'" + rest) == "'" + rest;
      PrefixedCons(s, PgRest("'" + rest));
    } else {
      hide Replaced;
      var tail := Replaced(s[1..], "'", "''") + ("'" + rest);
      PgInner(s[1..], rest);
      ReplacedQuote(s, "''");
      if s[0] == '\'' {
        assert Replaced(s, "'", "''") + ("'" + rest) == "''" + tail;
        PgDoubled(tail);
      } else {
        assert Replaced(s, "'", "''") + ("'" + rest) == [s[0]] + tail;
        PgPlain(s[0], tail);
      }
      PrefixedCons(s, PgRest("'" + rest));
    }
  }

  /** The literal lexes back to s and nothing of what follows is consumed, exactly when what follows does
      not begin with another quote. */
  lemma SqlQuotePgRoundTrip(s: string, rest: string)
    ensures PgLiteral(SqlQuotePg(s) + rest) == Some((s, rest)) <==> rest == "" || rest[0] != '\''
  {
    hide PgRest, Replaced;
    var body := Replaced(s, "'", "''");
    assert SqlQuotePg(s) + rest == "'" + (body + ("'" + rest));
    assert ("'" + (body + ("'" + rest)))[1..] == body + ("'" + rest);
    PgInner(s, rest);
    PgClose(rest);
    assert s + "" == s;
  }

  // ---------- MySQL ----------

  /** A Go string as `range` sees it: code points, and bytes that are not valid UTF-8. */
  datatype Rune = Rune(c: char) | Invalid(b: nat)
  type Runes = seq<Rune>

  const REPLACEMENT: Rune := Rune(0xFFFD as char)
  const QUOTE: Rune := Rune('\'')
  const BACKSLASH: Rune := Rune('\\')

  function MyEscape(r: Rune): Runes {
    if r == BACKSLASH then [BACKSLASH, BACKSLASH]
    else if r == QUOTE then [BACKSLASH, QUOTE]
    else if r == Rune(0 as char) then [BACKSLASH, Rune('0')]
    else if r == Rune('\n') then [BACKSLASH, Rune('n')]
    else if r == Rune('\r') then [BACKSLASH, Rune('r')]
    else if r.Invalid? then [REPLACEMENT]
    else [r]
  }

  function MyEscapeAll(s: Runes): Runes {
    if s == [] then [] else MyEscape(s[0]) + MyEscapeAll(s[1..])
  }

  lemma {:induction false} MyEscapeSnoc(s: Runes, r: Rune)
    ensures MyEscapeAll(s + [r]) == MyEscapeAll(s) + MyEscape(r)
  {
    if s == [] {
      assert [r][1..] == [];
    } else {
      assert (s + [r])[1..] == s[1..] + [r];
      MyEscapeSnoc(s[1..], r);
    }
  }

  /** `sqlQuoteMy`: a rune that is not valid UTF-8 is written as the replacement character. */
  method SqlQuoteMy(s: Runes) returns (q: Runes)
    ensures q == [QUOTE] + MyEscapeAll(s) + [QUOTE]
  {
    q := [QUOTE];
    for i := 0 to |s|
      invariant q == [QUOTE] + MyEscapeAll(s[..i])
    {
      assert s[..i + 1] == s[..i] + [s[i]];
      MyEscapeSnoc(s[..i], s[i]);
      var r := if s[i].Invalid? then REPLACEMENT else s[i];
      var piece := [r];
      if r == BACKSLASH { piece := [BACKSLASH, BACKSLASH]; }
      else if r == QUOTE { piece := [BACKSLASH, QUOTE]; }
      else if r.c == 0 as char { piece := [BACKSLASH, Rune('0')]; }
      else if r.c == '\n' { piece := [BACKSLASH, Rune('n')]; }
      else if r.c == '\r' { piece := [BACKSLASH, Rune('r')]; }
      assert piece == MyEscape(s[i]);
      q := q + piece;
    }
    assert s[..|s|] == s;
    q := q + [QUOTE];
  }

  /** A character after a backslash (table 9.1 of the MySQL 8.0 Reference Manual): `%` and `_` keep theirs. */
  function MyUnescape(r: Rune): Runes {
    if r == Rune('0') then [Rune(0 as char)]
    else if r == Rune('b') then [Rune(8 as char)]
    else if r == Rune('n') then [Rune('\n')]
    else if r == Rune('r') then [Rune('\r')]
    else if r == Rune('t') then [Rune('\t')]
    else if r == Rune('Z') then [Rune(26 as char)]
    else if r == Rune('%') || r == Rune('_') then [BACKSLASH, r]
    else [r]
  }

  function MyCons(p: Runes, r: Option<(Runes, Runes)>): Option<(Runes, Runes)> {
    match r
    case Some((w, rest)) => Some((p + w, rest))
    case None => None
  }

  /** A string literal after its opening quote (section 9.1.1 of the MySQL 8.0 Reference Manual). */
  function MyRest(s: Runes): Option<(Runes, Runes)> {
    if s == [] then None
    else if s[0] == QUOTE then
      if |s| > 1 && s[1] == QUOTE then MyCons([QUOTE], MyRest(s[2..])) else Some(([], s[1..]))
    else if s[0] == BACKSLASH then
      if |s| == 1 then None else MyCons(MyUnescape(s[1]), MyRest(s[2..]))
    else MyCons([s[0]], MyRest(s[1..]))
  }

  function MyLiteral(s: Runes): Option<(Runes, Runes)> {
    if s != [] && s[0] == QUOTE then MyRest(s[1..]) else None
  }

  /** What survives the quoting of one rune. */
  function Clean(r: Rune): Rune {
    if r.Invalid? then REPLACEMENT else r
  }

  function CleanAll(s: Runes): (t: Runes)
    ensures |t| == |s|
  {
    seq(|s|, i requires 0 <= i < |s| => Clean(s[i]))
  }

  lemma MyEscapeUndone(r: Rune)
    ensures var e := MyEscape(r);
      if |e| == 2 then e[0] == BACKSLASH && MyUnescape(e[1]) == [Clean(r)]
      else e == [Clean(r)] && Clean(r) != BACKSLASH && Clean(r) != QUOTE
  {
  }

  lemma MyStep(r: Rune, t: Runes)
    ensures MyRest(MyEscape(r) + t) == MyCons([Clean(r)], MyRest(t))
  {
    hide MyEscape, MyUnescape, Clean;
    var e := MyEscape(r);
    MyEscapeUndone(r);
    if |e| == 2 {
      assert (e + t)[0] == BACKSLASH && (e + t)[1] == e[1] && (e + t)[2..] == t;
    } else {
      assert (e + t)[0] == Clean(r) && (e + t)[1..] == t;
    }
  }

  lemma {:induction false} MyInner(s: Runes, rest: Runes)
    ensures MyRest(MyEscapeAll(s) + ([QUOTE] + rest)) == MyCons(CleanAll(s), MyRest([QUOTE] + rest))
  {
    hide MyRest, MyEscape;
    if s == [] {
      assert MyEscapeAll(s) + ([QUOTE] + rest) == [QUOTE] + rest && CleanAll(s) == [];
      if MyRest([QUOTE] + rest).Some? { assert [] + MyRest([QUOTE] + rest).value.0 == MyRest([QUOTE] + rest).value.0; }
    } else {
      var tail := MyEscapeAll(s[1..]) + ([QUOTE] + rest);
      MyInner(s[1..], rest);
      assert MyEscapeAll(s) + ([QUOTE] + rest) == MyEscape(s[0]) + tail;
      MyStep(s[0], tail);
      assert CleanAll(s) == [Clean(s[0])] + CleanAll(s[1..]);
      if MyRest([QUOTE] + rest).Some? {
        var w := MyRest([QUOTE] + rest).value.0;
        assert [Clean(s[0])] + (CleanAll(s[1..]) + w) == CleanAll(s) + w;
      }
    }
  }

  lemma MyShrinks(s: Runes)
    ensures MyRest(s).Some? ==> |MyRest(s).value.1| < |s|
  {
  }

  lemma MyClose(rest: Runes)
    ensures rest == [] || rest[0] != QUOTE ==> MyRest([QUOTE] + rest) == Some(([], rest))
    ensures rest != [] && rest[0] == QUOTE && MyRest([QUOTE] + rest).Some? ==> |MyRest([QUOTE] + rest).value.1| < |rest|
  {
    assert ([QUOTE] + rest)[1..] == rest;
    if rest != [] && rest[0] == QUOTE {
      assert ([QUOTE] + rest)[2..] == rest[1..];
      MyShrinks(rest[1..]);
    }
  }

  /** No NUL, newline or carriage return stands in the literal as it is. */
  lemma {:induction false} MyPrintsNoControls(s: Runes)
    ensures forall r :: r in MyEscapeAll(s) ==> r.Rune? && r.c != 0 as char && r.c != '\n' && r.c != '\r'
  {
    if s != [] { MyPrintsNoControls(s[1..]); }
  }

  /** The literal lexes back to s, and to no more than the literal, exactly when s is valid UTF-8 and what
      follows does not begin with another quote. */
  lemma SqlQuoteMyRoundTrip(s: Runes, rest: Runes)
    ensures MyLiteral([QUOTE] + MyEscapeAll(s) + [QUOTE] + rest) == Some((s, rest))
       <==> (forall r :: r in s ==> r.Rune?) && (rest == [] || rest[0] != QUOTE)
  {
    hide MyRest, MyEscapeAll, MyEscape;
    var text := [QUOTE] + MyEscapeAll(s) + [QUOTE] + rest;
    assert text[1..] == MyEscapeAll(s) + ([QUOTE] + rest);
    MyInner(s, rest);
    MyClose(rest);
    assert CleanAll(s) + [] == CleanAll(s);
    if CleanAll(s) == s {
      forall r | r in s ensures r.Rune? {
        var i :| 0 <= i < |s| && s[i] == r;
        assert CleanAll(s)[i] == Clean(r);
      }
    }
    if forall r :: r in s ==> r.Rune? {
      forall i | 0 <= i < |s| ensures CleanAll(s)[i] == s[i] { assert s[i] in s; }
    }
  }
}
