/** File modes as the agent stores them: an octal string in plans and in state.json,
    a number on disk. */
module Octal {
  import opened Options

  /** The nine permission bits `os.FileMode.Perm` keeps. */
  type Perm = m: int | 0 <= m < 512

  function Digit(d: int): (c: char)
    requires 0 <= d < 8
    ensures '0' <= c <= '7' && c as int - '0' as int == d
  {
    (d + '0' as int) as char
  }

  predicate IsOctal(c: char) { '0' <= c <= '7' }

  /** The spelling `status` can recognise: what FmtMode itself prints. */
  predicate FourDigit(s: string) {
    |s| == 4 && s[0] == '0' && IsOctal(s[1]) && IsOctal(s[2]) && IsOctal(s[3])
  }

  /** `fmt.Sprintf("%04o", m.Perm())`. */
  function FmtMode(m: Perm): (s: string)
    ensures FourDigit(s)
  {
    ['0', Digit(m / 64), Digit(m / 8 % 8), Digit(m % 8)]
  }

  function Digits(s: string, acc: nat): Option<nat> {
    if s == "" then Some(acc)
    else if IsOctal(s[0]) then Digits(s[1..], 8 * acc + (s[0] as int - '0' as int))
    else None
  }

  /** `strconv.ParseUint(s, 8, 32)`: no sign, no prefix, no empty string, 32 bits. */
  function ParseUint(s: string): Option<nat> {
    if s == "" then None
    else match Digits(s, 0)
      case Some(v) => if v < 0x1_0000_0000 then Some(v) else None
      case None => None
  }

  predicate AllOctal(s: string) { forall i :: 0 <= i < |s| ==> s[i] in "01234567" }

  /** The number an octal numeral stands for, its last digit counting once. */
  function Numeral(s: string): nat
    requires AllOctal(s)
  {
    if s == "" then 0 else 8 * Numeral(s[..|s| - 1]) + (s[|s| - 1] as int - '0' as int)
  }

  lemma {:induction false} DigitsSnoc(s: string, c: char, acc: nat)
    ensures Digits(s + [c], acc) ==
      if Digits(s, acc).Some? && IsOctal(c) then Some(8 * Digits(s, acc).value + (c as int - '0' as int)) else None
    decreases |s|
  {
    if s == "" {
      assert s + [c] == [c] && [c][1..] == "";
    } else {
      assert (s + [c])[1..] == s[1..] + [c];
      if IsOctal(s[0]) { DigitsSnoc(s[1..], c, 8 * acc + (s[0] as int - '0' as int)); }
    }
  }

  lemma {:induction false} DigitsMean(s: string)
    ensures Digits(s, 0) == if AllOctal(s) then Some(Numeral(s)) else None
  {
    if s != "" {
      var t, c := s[..|s| - 1], s[|s| - 1];
      assert s == t + [c];
      DigitsSnoc(t, c, 0);
      DigitsMean(t);
      assert AllOctal(s) <==> AllOctal(t) && IsOctal(c);
    }
  }

  /** A mode is read exactly when it is a non-empty octal numeral of at most 32 bits, and then as that number. */
  lemma ParseUintMeans(s: string)
    ensures ParseUint(s).Some? <==> s != "" && AllOctal(s) && Numeral(s) < 0x1_0000_0000
    ensures ParseUint(s).Some? ==> ParseUint(s).value == Numeral(s)
  {
    DigitsMean(s);
  }

  lemma DigitsOfFour(s: string)
    requires |s| == 4 && forall i :: 0 <= i < 4 ==> IsOctal(s[i])
    ensures var a, b, c, d := s[0] as int - 48, s[1] as int - 48, s[2] as int - 48, s[3] as int - 48;
      ParseUint(s) == Some(512 * a + 64 * b + 8 * c + d)
  {
    var a, b, c := s[1..], s[2..], s[3..];
    assert a[1..] == b && b[1..] == c && c[1..] == "";
    var n0 := s[0] as int - 48;
    var n1 := 8 * n0 + (a[0] as int - 48);
    var n2 := 8 * n1 + (b[0] as int - 48);
    var n3 := 8 * n2 + (c[0] as int - 48);
    assert Digits("", n3) == Some(n3);
    assert Digits(c, n2) == Some(n3);
    assert Digits(b, n1) == Some(n3);
    assert Digits(a, n0) == Some(n3);
    assert Digits(s, 0) == Some(n3);
  }

  lemma FmtDigits(m: Perm)
    ensures var s := FmtMode(m);
      s[0] as int - 48 == 0 && s[1] as int - 48 == m / 64 && s[2] as int - 48 == m / 8 % 8 && s[3] as int - 48 == m % 8
  {
  }

  lemma OctalParts(m: Perm)
    ensures 64 * (m / 64) + 8 * (m / 8 % 8) + m % 8 == m
  {
    var q := m / 8;
    assert m == 8 * q + m % 8 && q == 8 * (q / 8) + q % 8;
    assert q / 8 == m / 64;
  }

  /** Printing a mode and parsing it back gives the mode. */
  lemma ParseOfFmt(m: Perm)
    ensures FourDigit(FmtMode(m)) && ParseUint(FmtMode(m)) == Some(m)
  {
    hide ParseUint, FmtMode;
    DigitsOfFour(FmtMode(m));
    FmtDigits(m);
    OctalParts(m);
  }

  lemma FmtOfFourDigit(s: string)
    requires FourDigit(s)
    ensures ParseUint(s).Some? && ParseUint(s).value < 512 && FmtMode(ParseUint(s).value) == s
  {
    hide ParseUint;
    DigitsOfFour(s);
    var x, y, z := s[1] as int - 48, s[2] as int - 48, s[3] as int - 48;
    var v := 64 * x + 8 * y + z;
    assert v / 64 == x;
    assert v / 8 == 8 * x + y && v / 8 % 8 == y;
    assert v % 8 == z;
  }

  /** A mode string survives parse, chmod and print exactly when it is four digits led by 0. */
  lemma FmtOfParse(s: string)
    requires ParseUint(s).Some?
    ensures FmtMode(ParseUint(s).value % 512) == s <==> FourDigit(s)
  {
    hide ParseUint, FmtMode;
    if FourDigit(s) {
      FmtOfFourDigit(s);
      assert ParseUint(s).value % 512 == ParseUint(s).value;
    }
  }
}
