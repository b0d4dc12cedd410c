/** Decimal numbers in text: what fmt's %d prints and what the net package's
    digit reader takes off the front of a string. */
module Decimal {

  // The digit reader gives up on numbers this large.
  const BIG := 0xFFFFFF

  /** The outcome of reading leading digits: the number, how many characters it used, and whether
      it is acceptable. */
  datatype Leading = Leading(value: nat, used: nat, ok: bool)

  predicate IsDigit(c: char) {
    '0' <= c <= '9'
  }

  function DigitChar(d: nat): char
    requires d < 10
  {
    '0' + d as char
  }

  function DigitValue(c: char): nat
    requires IsDigit(c)
  {
    (c - '0') as nat
  }

  function Format(n: nat): (s: string)
    ensures s != []
  {
    if n < 10 then [DigitChar(n)] else Format(n / 10) + [DigitChar(n % 10)]
  }

  function ReadFrom(s: string, i: nat, acc: nat): (r: Leading)
    requires i <= |s|
    ensures r.ok ==> 0 < r.used <= |s|
    decreases |s| - i
  {
    if i < |s| && IsDigit(s[i]) then
      var acc' := acc * 10 + DigitValue(s[i]);
      if acc' >= BIG then Leading(BIG, i, false) else ReadFrom(s, i + 1, acc')
    else
      Leading(acc, i, i != 0)
  }

  function Read(s: string): Leading {
    ReadFrom(s, 0, 0)
  }

  /** Reading passes over the digits of a printed number and has its value at their end. */
  lemma {:induction false} ReadPasses(n: nat, rest: string)
    requires n < BIG
    ensures Read(Format(n) + rest) == ReadFrom(Format(n) + rest, |Format(n)|, n)
  {
    var s := Format(n) + rest;
    if n < 10 {
      assert s[0] == DigitChar(n);
      assert ReadFrom(s, 0, 0) == ReadFrom(s, 1, n);
    } else {
      var tail := [DigitChar(n % 10)] + rest;
      assert s == Format(n / 10) + tail;
      ReadPasses(n / 10, tail);
      var i := |Format(n / 10)|;
      assert s[i] == DigitChar(n % 10);
      assert (n / 10) * 10 + DigitValue(s[i]) == n;
    }
  }

  /** Reading undoes printing, whatever non-digit text follows. */
  lemma ReadFormat(n: nat, rest: string)
    requires n < BIG
    requires rest != [] ==> !IsDigit(rest[0])
    ensures Read(Format(n) + rest) == Leading(n, |Format(n)|, true)
  {
    ReadPasses(n, rest);
    var s := Format(n) + rest;
    var i := |Format(n)|;
    assert i < |s| ==> s[i] == rest[0];
  }

  /** A printed number has no leading zero unless it is the single digit 0, and is all digits. */
  lemma {:induction false} FormatDigits(n: nat)
    ensures |Format(n)| > 1 ==> Format(n)[0] != '0'
    ensures forall i :: 0 <= i < |Format(n)| ==> IsDigit(Format(n)[i])
  {
    if n >= 10 {
      FormatDigits(n / 10);
      assert Format(n)[0] == Format(n / 10)[0];
      if n < 100 {
        assert Format(n / 10) == [DigitChar(n / 10)];
      }
    }
  }
}
