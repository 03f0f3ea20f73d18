/**
 * The two pieces of JavaScript string behaviour the screens depend on:
 * `String.prototype.trim` (ECMAScript WhiteSpace and LineTerminator code
 * points) and the decimal rendering of a non-negative integer inside a
 * template literal such as `tag-${Date.now()}`.
 */
module JsString {

  /** ECMAScript WhiteSpace or LineTerminator: what `trim` strips. */
  predicate IsWhiteSpace(c: char) {
    var u := c as int;
    u == 0x09 || u == 0x0A || u == 0x0B || u == 0x0C || u == 0x0D || u == 0x20
    || u == 0xA0 || u == 0x1680 || (0x2000 <= u <= 0x200A) || u == 0x2028
    || u == 0x2029 || u == 0x202F || u == 0x205F || u == 0x3000 || u == 0xFEFF
  }

  /** Every character of `s` is white space (true of the empty string). */
  predicate AllWhiteSpace(s: string) {
    forall k :: 0 <= k < |s| ==> IsWhiteSpace(s[k])
  }

  /** Length of the white-space prefix of `s`. */
  function LeadingWhiteSpace(s: string): (n: nat)
    ensures n <= |s|
    ensures AllWhiteSpace(s[..n])
    ensures n < |s| ==> !IsWhiteSpace(s[n])
  {
    if s == [] || !IsWhiteSpace(s[0]) then 0
    else
      var n := 1 + LeadingWhiteSpace(s[1..]);
      assert s[..n] == [s[0]] + s[1..][..n - 1];
      n
  }

  /** Length of the white-space suffix of `s`. */
  function TrailingWhiteSpace(s: string): (n: nat)
    ensures n <= |s|
    ensures AllWhiteSpace(s[|s| - n..])
    ensures n < |s| ==> !IsWhiteSpace(s[|s| - n - 1])
  {
    if s == [] || !IsWhiteSpace(s[|s| - 1]) then 0
    else
      var t := s[..|s| - 1];
      var n := 1 + TrailingWhiteSpace(t);
      assert s[|s| - n..] == t[|t| - (n - 1)..] + [s[|s| - 1]];
      assert n < |s| ==> s[|s| - n - 1] == t[|t| - (n - 1) - 1];
      n
  }

  /**
   * `String.prototype.trim`: `s` without its leading and trailing white
   * space. The result is a contiguous piece of `s`, everything cut off is
   * white space, and the result neither starts nor ends with white space.
   */
  function Trim(s: string): (r: string)
    ensures |r| <= |s|
    ensures r == [] || (!IsWhiteSpace(r[0]) && !IsWhiteSpace(r[|r| - 1]))
    ensures exists i, j :: 0 <= i <= j <= |s| && r == s[i..j]
                           && AllWhiteSpace(s[..i]) && AllWhiteSpace(s[j..])
    ensures r == [] <==> AllWhiteSpace(s)
  {
    var i := LeadingWhiteSpace(s);
    if i == |s| then
      assert s[..i] == s && s[i..i] == [] && s[i..] == [];
      []
    else
      var t := s[i..];
      var n := TrailingWhiteSpace(t);
      assert t[0] == s[i];
      var j := |s| - n;
      assert s[j..] == t[|t| - n..];
      assert s[i..j][0] == s[i];
      assert s[i..j][j - i - 1] == t[|t| - n - 1];
      assert !AllWhiteSpace(s) by { assert !IsWhiteSpace(s[i]); }
      s[i..j]
  }

  /** Trimming twice is trimming once. */
  lemma TrimIdempotent(s: string)
    ensures Trim(Trim(s)) == Trim(s)
  {
    var r := Trim(s);
    if r != [] {
      assert LeadingWhiteSpace(r) == 0;
      assert r[0..] == r;
      assert TrailingWhiteSpace(r) == 0;
      assert r[0..|r|] == r;
    }
  }

  /** The ASCII digit for `d`. */
  function DigitChar(d: nat): (c: char)
    requires d < 10
    ensures '0' <= c <= '9' && c as int - '0' as int == d
  {
    ['0', '1', '2', '3', '4', '5', '6', '7', '8', '9'][d]
  }

  /** Decimal rendering of `n` without leading zeros, as `${n}` prints it. */
  function Decimal(n: nat): (s: string)
    ensures 1 <= |s|
    ensures forall k :: 0 <= k < |s| ==> '0' <= s[k] <= '9'
    ensures |s| > 1 ==> s[0] != '0'
    ensures DigitsValue(s) == n
  {
    if n < 10 then [DigitChar(n)]
    else
      var p := Decimal(n / 10);
      assert (p + [DigitChar(n % 10)])[..|p|] == p;
      p + [DigitChar(n % 10)]
  }

  /** The number a string of decimal digits denotes (most significant first). */
  function DigitsValue(s: string): int
  {
    if s == [] then 0 else 10 * DigitsValue(s[..|s| - 1]) + (s[|s| - 1] as int - '0' as int)
  }
}
