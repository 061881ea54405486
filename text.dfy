/** Decimal text: the digit strings, zero padding, one-decimal formatting and
    decimal parsing that the file names and column labels are made of, and
    splitting on a separator character. */
module Text {
  import opened Wrappers

  predicate IsDigit(ch: char) {
    '0' <= ch <= '9'
  }

  predicate AllDigits(s: string) {
    forall i :: 0 <= i < |s| ==> IsDigit(s[i])
  }

  function DigitChar(d: nat): (ch: char)
    requires d < 10
    ensures IsDigit(ch)
    ensures ch as int - '0' as int == d
  {
    ['0', '1', '2', '3', '4', '5', '6', '7', '8', '9'][d]
  }

  function DigitValue(ch: char): (d: nat)
    requires IsDigit(ch)
    ensures d < 10
  {
    ch as int - '0' as int
  }

  /** The decimal digits of n, most significant first, without leading zeros. */
  function NatToString(n: nat): (s: string)
    ensures |s| >= 1 && AllDigits(s)
    ensures |s| > 1 ==> s[0] != '0'
    ensures n < 10 <==> |s| == 1
  {
    if n < 10 then [DigitChar(n)]
    else NatToString(n / 10) + [DigitChar(n % 10)]
  }

  /** The value of a string of decimal digits (0 for the empty string). */
  function ParseDigits(s: string): nat
    requires AllDigits(s)
  {
    if s == [] then 0 else 10 * ParseDigits(s[..|s| - 1]) + DigitValue(s[|s| - 1])
  }

  lemma {:induction false} ParseNatToString(n: nat)
    ensures ParseDigits(NatToString(n)) == n
  {
    var s := NatToString(n);
    if n >= 10 {
      ParseNatToString(n / 10);
      assert s[..|s| - 1] == NatToString(n / 10);
    }
  }

  /** Distinct numbers have distinct digit strings. */
  lemma NatToStringInjective(m: nat, n: nat)
    requires NatToString(m) == NatToString(n)
    ensures m == n
  {
    ParseNatToString(m);
    ParseNatToString(n);
  }

  /** A number padded with a leading zero to at least two digits, as `{:02d}` formats it. */
  function Pad2(n: nat): (s: string)
    ensures AllDigits(s) && |s| >= 2
    ensures n < 100 ==> |s| == 2
    ensures ParseDigits(s) == n
  {
    ParseNatToString(n);
    if n < 10 then
      assert ParseDigits(['0']) == 0;
      assert (['0'] + NatToString(n))[..1] == ['0'];
      "0" + NatToString(n)
    else NatToString(n)
  }

  /** A non-negative number of tenths written with one decimal place. */
  function UnsignedTenths(n: nat): (s: string)
    ensures |s| >= 3 && s[|s| - 2] == '.' && IsDigit(s[0]) && IsDigit(s[|s| - 1])
  {
    NatToString(n / 10) + "." + [DigitChar(n % 10)]
  }

  /** A number of tenths written with one decimal place, as `'{:.1f}'` writes
      t / 10: an optional minus sign, the whole part, a point and one digit. */
  function FormatTenths(t: int): (s: string)
    ensures |s| >= 3 && s[|s| - 2] == '.' && IsDigit(s[|s| - 1])
    ensures s[0] == '-' <==> t < 0
  {
    if t < 0 then "-" + UnsignedTenths(-t) else UnsignedTenths(t)
  }

  /** A formatted number holds only digits, a point and perhaps a leading minus. */
  lemma FormatTenthsChars(t: int)
    ensures forall i :: 0 <= i < |FormatTenths(t)| ==> IsDigit(FormatTenths(t)[i]) || FormatTenths(t)[i] in ".-"
  {
    var n := if t < 0 then -t else t;
    var u := UnsignedTenths(n);
    assert forall i :: 0 <= i < |NatToString(n / 10)| ==> IsDigit(NatToString(n / 10)[i]);
    assert forall i :: 0 <= i < |u| ==> IsDigit(u[i]) || u[i] == '.';
  }

  /** The first position of `ch` in `s`. */
  function IndexOf(s: string, ch: char): (r: Option<nat>)
    ensures r.Some? ==> r.value < |s|
  {
    if s == [] then None
    else if s[0] == ch then Some(0)
    else
      var rest := IndexOf(s[1..], ch);
      if rest.None? then None else Some(rest.value + 1)
  }

  /** IndexOf finds nothing exactly when ch is absent, and otherwise a position
      of ch with none before it. */
  lemma {:induction false} IndexOfFinds(s: string, ch: char)
    ensures IndexOf(s, ch).None? <==> ch !in s
    ensures IndexOf(s, ch).Some? ==> s[IndexOf(s, ch).value] == ch && ch !in s[..IndexOf(s, ch).value]
  {
    if s != [] && s[0] != ch {
      var rest := IndexOf(s[1..], ch);
      IndexOfFinds(s[1..], ch);
      assert s == [s[0]] + s[1..];
      if rest.Some? {
        assert s[..rest.value + 1] == [s[0]] + s[1..][..rest.value];
      }
    }
  }

  function Pow10(k: nat): (p: nat)
    ensures p >= 1
  {
    if k == 0 then 1 else 10 * Pow10(k - 1)
  }

  /** The value of `whole.frac` for digit strings whole and frac. */
  function DecimalValue(whole: string, frac: string): (v: real)
    requires AllDigits(whole) && AllDigits(frac)
    ensures v >= 0.0
  {
    ParseDigits(whole) as real + ParseDigits(frac) as real / Pow10(|frac|) as real
  }

  /** An unsigned decimal with its first point (if any) at `point`. */
  function ParseUnsignedAt(s: string, point: Option<nat>): (r: Result<real>)
    requires point.Some? ==> point.value < |s|
    ensures r.Failure? ==> r.error == ValueError
  {
    match point
    case None =>
      if s != [] && AllDigits(s) then Success(ParseDigits(s) as real) else Failure(ValueError)
    case Some(p) =>
      var whole, frac := s[..p], s[p + 1..];
      if (whole != [] || frac != []) && AllDigits(whole) && AllDigits(frac) then Success(DecimalValue(whole, frac))
      else Failure(ValueError)
  }

  /** An unsigned decimal: digits, optionally a point and more digits, with at
      least one digit in all. */
  function ParseUnsigned(s: string): (r: Result<real>)
    ensures r.Success? ==> r.value >= 0.0
    ensures r.Failure? ==> r.error == ValueError
  {
    ParseUnsignedAt(s, IndexOf(s, '.'))
  }

  /** The value of an unsigned parse under a sign character. */
  function Signed(sign: char, r: Result<real>): (signed: Result<real>)
    ensures signed.Success? <==> r.Success?
    ensures signed.Success? ==> signed.value == (if sign == '-' then -r.value else r.value)
  {
    if r.Success? && sign == '-' then Success(-r.value) else r
  }

  /** `float(s)` on plain decimal text: an optional sign, then an unsigned decimal. */
  function ParseDecimal(s: string): (r: Result<real>)
    ensures r.Failure? ==> r.error == ValueError
    ensures r.Success? && s != [] && s[0] != '-' ==> r.value >= 0.0
  {
    if s != [] && (s[0] == '-' || s[0] == '+') then Signed(s[0], ParseUnsigned(s[1..]))
    else ParseUnsigned(s)
  }

  /** The first position of ch in `w + rest`, when w does not hold ch and rest starts with it. */
  lemma {:induction false} IndexOfAfter(w: string, rest: string, ch: char)
    requires ch !in w && rest != [] && rest[0] == ch
    ensures IndexOf(w + rest, ch) == Some(|w|)
  {
    if w != [] {
      assert (w + rest)[1..] == w[1..] + rest;
      IndexOfAfter(w[1..], rest, ch);
    }
  }

  lemma ParseOneDigit(d: nat)
    requires d < 10
    ensures ParseDigits([DigitChar(d)]) == d
  {
    assert [DigitChar(d)][..0] == [];
  }

  /** Where the point falls in `whole.frac`. */
  lemma PointSplit(whole: string, frac: string)
    requires AllDigits(whole)
    ensures IndexOf(whole + "." + frac, '.') == Some(|whole|)
    ensures (whole + "." + frac)[..|whole|] == whole && (whole + "." + frac)[|whole| + 1..] == frac
  {
    assert '.' !in whole by {
      assert forall i :: 0 <= i < |whole| ==> IsDigit(whole[i]);
    }
    assert whole + "." + frac == whole + ("." + frac);
    IndexOfAfter(whole, "." + frac, '.');
  }

  lemma ParseUnsignedTenths(n: nat)
    ensures ParseUnsigned(UnsignedTenths(n)) == Success(n as real / 10.0)
  {
    var q, d := n / 10, n % 10;
    var w, f := NatToString(q), [DigitChar(d)];
    PointSplit(w, f);
    ParseNatToString(q);
    ParseOneDigit(d);
    assert Pow10(|f|) == 10;
    assert DecimalValue(w, f) == q as real + d as real / 10.0;
    assert n == 10 * q + d;
  }

  lemma ParseNegative(u: string)
    ensures ParseDecimal("-" + u) == Signed('-', ParseUnsigned(u))
  {
    assert ("-" + u)[1..] == u;
  }

  lemma ParseUnsignedDigitFirst(u: string)
    requires u != [] && IsDigit(u[0])
    ensures ParseDecimal(u) == ParseUnsigned(u)
  {
  }

  lemma ParseFormatNonNegative(n: nat)
    ensures ParseDecimal(FormatTenths(n)) == Success(n as real / 10.0)
  {
    ParseUnsignedTenths(n);
    ParseUnsignedDigitFirst(UnsignedTenths(n));
  }

  lemma ParseFormatNegative(n: nat)
    requires n > 0
    ensures ParseDecimal(FormatTenths(-(n as int))) == Success(-(n as real) / 10.0)
  {
    ParseUnsignedTenths(n);
    ParseNegative(UnsignedTenths(n));
  }

  /** Parsing a formatted number of tenths gives back t / 10 exactly. */
  lemma ParseFormatTenths(t: int)
    ensures ParseDecimal(FormatTenths(t)) == Success(t as real / 10.0)
  {
    if t < 0 {
      ParseFormatNegative(-t);
    } else {
      ParseFormatNonNegative(t);
    }
  }

  /** Distinct numbers of tenths have distinct formats. */
  lemma FormatTenthsInjective(s: int, t: int)
    requires FormatTenths(s) == FormatTenths(t)
    ensures s == t
  {
    ParseFormatTenths(s);
    ParseFormatTenths(t);
  }

  /** `s.split(sep)`: the pieces between occurrences of sep, in order. */
  function Split(s: string, sep: char): (pieces: seq<string>)
    ensures |pieces| >= 1
  {
    match IndexOf(s, sep)
    case None => [s]
    case Some(p) => [s[..p]] + Split(s[p + 1..], sep)
  }

  /** No piece holds the separator, and joining the pieces gives s back. */
  lemma {:induction false} SplitPieces(s: string, sep: char)
    ensures forall i :: 0 <= i < |Split(s, sep)| ==> sep !in Split(s, sep)[i]
    ensures Join(Split(s, sep), sep) == s
  {
    IndexOfFinds(s, sep);
    match IndexOf(s, sep)
    case None =>
    case Some(p) =>
      SplitPieces(s[p + 1..], sep);
      assert s == s[..p] + [sep] + s[p + 1..];
      assert Split(s, sep)[1..] == Split(s[p + 1..], sep);
  }

  /** The pieces joined with sep between them: the inverse of Split. */
  function Join(pieces: seq<string>, sep: char): string
    requires |pieces| >= 1
  {
    if |pieces| == 1 then pieces[0] else pieces[0] + [sep] + Join(pieces[1..], sep)
  }

  /** Splitting after a separator-free first piece. */
  lemma SplitCons(a: string, rest: string, sep: char)
    requires sep !in a
    ensures Split(a + [sep] + rest, sep) == [a] + Split(rest, sep)
  {
    var s := a + [sep] + rest;
    assert s == a + ([sep] + rest) && s[..|a|] == a;
    IndexOfAfter(a, [sep] + rest, sep);
    assert s[|a| + 1..] == rest;
  }

  /** Splitting two separator-free pieces joined by the separator gives them back. */
  lemma SplitTwo(a: string, b: string, sep: char)
    requires sep !in a && sep !in b
    ensures Split(a + [sep] + b, sep) == [a, b]
  {
    SplitCons(a, b, sep);
    IndexOfFinds(b, sep);
  }
}
