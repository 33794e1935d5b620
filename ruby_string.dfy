/**
 * Ruby's `String#to_i` (base 10) and `NilClass#to_i`, the loose numeric
 * coercion the client applies to every integer field of the feeds.
 */
module RubyString {
  import opened Wrappers

  /** The characters Ruby skips before a number: space, \t, \n, \v, \f, \r. */
  predicate IsSpace(c: char) {
    c == ' ' || '\t' <= c <= '\r'
  }

  predicate IsDigit(c: char) {
    '0' <= c <= '9'
  }

  predicate AllDigits(s: string) {
    forall i :: 0 <= i < |s| ==> IsDigit(s[i])
  }

  function DigitValue(c: char): (d: nat)
    requires IsDigit(c)
    ensures d < 10
  {
    c as int - '0' as int
  }

  function DigitChar(d: nat): (c: char)
    requires d < 10
    ensures IsDigit(c) && DigitValue(c) == d
  {
    ('0' as int + d) as char
  }

  /** Length of the run of whitespace that starts `s`. */
  function LeadingSpaces(s: string): (n: nat)
    ensures n <= |s|
    ensures forall i :: 0 <= i < n ==> IsSpace(s[i])
    ensures n == |s| || !IsSpace(s[n])
  {
    if s != [] && IsSpace(s[0]) then 1 + LeadingSpaces(s[1..]) else 0
  }

  /** Length of the run of decimal digits that starts `s`. */
  function LeadingDigits(s: string): (n: nat)
    ensures n <= |s|
    ensures AllDigits(s[..n])
    ensures n == |s| || !IsDigit(s[n])
  {
    if s != [] && IsDigit(s[0]) then
      var n := 1 + LeadingDigits(s[1..]);
      assert s[..n] == [s[0]] + s[1..][..n - 1];
      n
    else 0
  }

  /** The value of a string of decimal digits, most significant first. */
  function DigitsValue(ds: string): nat
    requires AllDigits(ds)
  {
    if ds == [] then 0 else 10 * DigitsValue(ds[..|ds| - 1]) + DigitValue(ds[|ds| - 1])
  }

  /** The value of the digits that start `s`; 0 when there are none. */
  function UnsignedPrefix(s: string): nat {
    DigitsValue(s[..LeadingDigits(s)])
  }

  /**
   * `x.to_i`: skip leading whitespace, read an optional sign and the digits
   * after it; no digits read as 0, and `nil.to_i` is 0.
   */
  function ToI(s: Option<string>): (r: int)
    ensures s.None? ==> r == 0
    ensures s.Some? && StartsWithoutNumber(s.value) ==> r == 0
    ensures s.Some? && s.value != [] && IsDigit(s.value[0]) ==> r >= 0
  {
    match s
    case None => 0
    case Some(t) =>
      var u := t[LeadingSpaces(t)..];
      if u != [] && u[0] == '-' then -(UnsignedPrefix(u[1..]) as int)
      else if u != [] && u[0] == '+' then UnsignedPrefix(u[1..])
      else UnsignedPrefix(u)
  }

  /** The canonical decimal rendering of a natural number (`n.to_s`). */
  function Decimal(n: nat): (s: string)
    ensures s != [] && AllDigits(s)
  {
    if n < 10 then [DigitChar(n)] else Decimal(n / 10) + [DigitChar(n % 10)]
  }

  /** `n.to_s` for any integer. */
  function IntString(n: int): string {
    if n < 0 then "-" + Decimal(-n) else Decimal(n)
  }

  lemma {:induction false} DecimalValue(n: nat)
    ensures DigitsValue(Decimal(n)) == n
  {
    if n >= 10 {
      var s := Decimal(n);
      assert s[..|s| - 1] == Decimal(n / 10);
      DecimalValue(n / 10);
    }
  }

  /** The digit run stops exactly where the digits `ds` stop. */
  lemma {:induction false} LeadingDigitsOf(ds: string, rest: string)
    requires AllDigits(ds)
    requires rest == [] || !IsDigit(rest[0])
    ensures LeadingDigits(ds + rest) == |ds|
  {
    if ds != [] {
      assert (ds + rest)[1..] == ds[1..] + rest;
      LeadingDigitsOf(ds[1..], rest);
    }
  }

  /** The whitespace run stops exactly where the whitespace `ws` stops. */
  lemma {:induction false} LeadingSpacesOf(ws: string, rest: string)
    requires forall i :: 0 <= i < |ws| ==> IsSpace(ws[i])
    requires rest == [] || !IsSpace(rest[0])
    ensures LeadingSpaces(ws + rest) == |ws|
  {
    if ws != [] {
      assert (ws + rest)[1..] == ws[1..] + rest;
      LeadingSpacesOf(ws[1..], rest);
    }
  }

  lemma UnsignedPrefixOf(ds: string, rest: string)
    requires AllDigits(ds)
    requires rest == [] || !IsDigit(rest[0])
    ensures UnsignedPrefix(ds + rest) == DigitsValue(ds)
  {
    LeadingDigitsOf(ds, rest);
    assert (ds + rest)[..|ds|] == ds;
  }

  /**
   * Whitespace, then digits, then anything that is not a digit: `to_i` is
   * the value of the digits.
   */
  lemma ToIOfNumber(ws: string, ds: string, rest: string)
    requires forall i :: 0 <= i < |ws| ==> IsSpace(ws[i])
    requires ds != [] && AllDigits(ds)
    requires rest == [] || !IsDigit(rest[0])
    ensures ToI(Some(ws + ds + rest)) == DigitsValue(ds)
  {
    var t := ws + ds + rest;
    assert t == ws + (ds + rest);
    LeadingSpacesOf(ws, ds + rest);
    var u := t[|ws|..];
    assert u == ds + rest;
    assert u[0] == ds[0] && IsDigit(u[0]);
    UnsignedPrefixOf(ds, rest);
  }

  /** Whitespace, a minus sign, then digits: `to_i` is the negated value. */
  lemma ToIOfNegativeNumber(ws: string, ds: string, rest: string)
    requires forall i :: 0 <= i < |ws| ==> IsSpace(ws[i])
    requires AllDigits(ds)
    requires rest == [] || !IsDigit(rest[0])
    ensures ToI(Some(ws + "-" + ds + rest)) == -(DigitsValue(ds) as int)
  {
    var tail := ds + rest;
    var t := ws + "-" + ds + rest;
    assert t == ws + ("-" + tail);
    LeadingSpacesOf(ws, "-" + tail);
    var u := t[|ws|..];
    assert u == "-" + tail;
    assert u[0] == '-' && u[1..] == tail;
    UnsignedPrefixOf(ds, rest);
  }

  /** Whitespace, a plus sign, then digits: `to_i` is the value of the digits. */
  lemma ToIOfPositiveNumber(ws: string, ds: string, rest: string)
    requires forall i :: 0 <= i < |ws| ==> IsSpace(ws[i])
    requires AllDigits(ds)
    requires rest == [] || !IsDigit(rest[0])
    ensures ToI(Some(ws + "+" + ds + rest)) == DigitsValue(ds)
  {
    var tail := ds + rest;
    var t := ws + "+" + ds + rest;
    assert t == ws + ("+" + tail);
    LeadingSpacesOf(ws, "+" + tail);
    var u := t[|ws|..];
    assert u == "+" + tail;
    assert u[0] == '+' && u[1..] == tail;
    UnsignedPrefixOf(ds, rest);
  }

  /** A string of digits reads as its value. */
  lemma ToIOfDigits(ds: string)
    requires AllDigits(ds)
    ensures ToI(Some(ds)) == DigitsValue(ds)
  {
    if ds != [] {
      ToIOfNumber([], ds, []);
      assert [] + ds + [] == ds;
    }
  }

  /** `to_i` inverts `to_s` on every integer. */
  lemma ToIRoundTrip(n: int)
    ensures ToI(Some(IntString(n))) == n
  {
    if n < 0 {
      NegativeRoundTrip(-n);
    } else {
      DecimalValue(n);
      ToIOfDigits(Decimal(n));
    }
  }

  lemma NegativeRoundTrip(k: nat)
    requires k > 0
    ensures ToI(Some("-" + Decimal(k))) == -(k as int)
  {
    var ds := Decimal(k);
    DecimalValue(k);
    ToIOfNegativeNumber([], ds, []);
    assert [] + "-" + ds + [] == "-" + ds;
  }

  /** Text that starts with neither whitespace, a sign nor a digit. */
  predicate StartsWithoutNumber(t: string) {
    t != [] && !IsSpace(t[0]) && !IsDigit(t[0]) && t[0] != '-' && t[0] != '+'
  }

  /**
   * Text with no number for `to_i` to read: whitespace, at most one sign,
   * then no digit (`""`, `" N/A"`, `"-"`, `"+x"`).
   */
  predicate NoNumber(ws: string, sign: string, t: string) {
    && (forall i :: 0 <= i < |ws| ==> IsSpace(ws[i]))
    && (sign == [] || sign == "-" || sign == "+")
    && (t == [] || !IsDigit(t[0]))
    && (sign == [] && t != [] ==> !IsSpace(t[0]) && t[0] != '-' && t[0] != '+')
  }

  /** Text with no number reads as 0. */
  lemma ToIOfNoNumber(ws: string, sign: string, t: string)
    requires NoNumber(ws, sign, t)
    ensures ToI(Some(ws + sign + t)) == 0
  {
    if sign == "-" {
      ToIOfNegativeNumber(ws, [], t);
      assert ws + "-" + [] + t == ws + sign + t;
    } else if sign == "+" {
      ToIOfPositiveNumber(ws, [], t);
      assert ws + "+" + [] + t == ws + sign + t;
    } else {
      assert ws + sign + t == ws + t;
      LeadingSpacesOf(ws, t);
      assert (ws + t)[|ws|..] == t;
      UnsignedPrefixOf([], t);
      assert [] + t == t;
    }
  }

  /** Such text reads as 0. */
  lemma ToIOfNonNumeric(t: string)
    requires StartsWithoutNumber(t)
    ensures ToI(Some(t)) == 0
  {
    assert LeadingSpaces(t) == 0;
    assert LeadingDigits(t) == 0;
  }
}
