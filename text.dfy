/** String helpers shared by both versions of the challenge search: the
    run of '0' characters that forms the target, the prefix test
    (`str.startswith` / `String.prototype.startsWith`), and the decimal
    rendering of a nonce (`str(nonce)` / `gameId + nonce`). */
module Text {

  /** `"0" * k` in Python, `"0".repeat(k)` in TypeScript, for k >= 0. */
  function Zeros(k: nat): (t: string)
    ensures |t| == k
    ensures forall i :: 0 <= i < k ==> t[i] == '0'
  {
    if k == 0 then "" else "0" + Zeros(k - 1)
  }

  /** `s.startswith(p)` / `s.startsWith(p)`: `p` is no longer than `s` and
      agrees with it character by character. */
  predicate StartsWith(s: string, p: string)
    ensures StartsWith(s, p) <==> |p| <= |s| && forall i :: 0 <= i < |p| ==> s[i] == p[i]
  {
    |p| <= |s| && s[..|p|] == p
  }

  /** The number of '0' characters at the head of `s`. */
  function LeadingZeros(s: string): (z: nat)
    ensures z <= |s|
    ensures forall i :: 0 <= i < z ==> s[i] == '0'
    ensures z < |s| ==> s[z] != '0'
  {
    if s == [] || s[0] != '0' then 0 else 1 + LeadingZeros(s[1..])
  }

  /** A string starts with k zeros exactly when its run of leading zeros is
      at least k long. */
  lemma StartsWithZerosIff(s: string, k: nat)
    ensures StartsWith(s, Zeros(k)) <==> k <= LeadingZeros(s)
  {
  }

  /** A hash that meets a difficulty meets every smaller one. */
  lemma StartsWithFewerZeros(s: string, k1: nat, k2: nat)
    requires k1 <= k2
    requires StartsWith(s, Zeros(k2))
    ensures StartsWith(s, Zeros(k1))
  {
  }

  predicate IsDigit(c: char)
  {
    '0' <= c <= '9'
  }

  function DigitChar(d: nat): (c: char)
    requires d < 10
    ensures IsDigit(c)
  {
    (('0' as int) + d) as char
  }

  function DigitValue(c: char): (d: nat)
    requires IsDigit(c)
    ensures d < 10
  {
    (c as int) - ('0' as int)
  }

  /** The decimal text of a natural number, as Python's `str` and
      JavaScript's number-to-string conversion render it: at least one
      digit, and no leading zero except in "0" itself. */
  function Decimal(n: nat): (s: string)
    ensures |s| >= 1
    ensures forall i :: 0 <= i < |s| ==> IsDigit(s[i])
    ensures s[0] == '0' ==> s == "0"
  {
    if n < 10 then [DigitChar(n)] else Decimal(n / 10) + [DigitChar(n % 10)]
  }

  /** Reads a string of decimal digits back as a number. */
  function ParseDecimal(s: string): nat
    requires forall i :: 0 <= i < |s| ==> IsDigit(s[i])
  {
    if s == [] then 0 else 10 * ParseDecimal(s[..|s| - 1]) + DigitValue(s[|s| - 1])
  }

  /** Parsing the decimal text of n gives back n. */
  lemma {:induction false} DecimalRoundTrip(n: nat)
    ensures ParseDecimal(Decimal(n)) == n
  {
    var s := Decimal(n);
    if n < 10 {
      assert s[..|s| - 1] == [];
    } else {
      assert s[..|s| - 1] == Decimal(n / 10);
      DecimalRoundTrip(n / 10);
    }
  }
}
