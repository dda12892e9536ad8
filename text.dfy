/** The two JavaScript string conversions the pipeline relies on. */
module Text {

  /** `String.prototype.toLowerCase`, restricted to the ASCII letters. */
  function LowerChar(c: char): char {
    if 'A' <= c <= 'Z' then (c as int + 32) as char else c
  }

  /**
   * `toLowerCase`: the same length, no upper-case ASCII letter left, every
   * other character kept, and each upper-case letter replaced by its
   * lower-case partner.
   */
  function Lower(s: string): (t: string)
    ensures |t| == |s|
    ensures forall i :: 0 <= i < |t| ==> !('A' <= t[i] <= 'Z')
    ensures forall i :: 0 <= i < |s| && !('A' <= s[i] <= 'Z') ==> t[i] == s[i]
    ensures forall i :: 0 <= i < |s| && 'A' <= s[i] <= 'Z' ==> 'a' <= t[i] <= 'z' && t[i] as int - s[i] as int == 'a' as int - 'A' as int
    ensures forall i :: 0 <= i < |s| ==> t[i] == LowerChar(s[i])
  {
    seq(|s|, i requires 0 <= i < |s| => LowerChar(s[i]))
  }

  /** Lower-casing twice is lower-casing once. */
  lemma LowerIdempotent(s: string)
    ensures Lower(Lower(s)) == Lower(s)
  {
    assert forall i :: 0 <= i < |s| ==> LowerChar(LowerChar(s[i])) == LowerChar(s[i]);
  }

  function DecimalDigit(d: int): char
    requires 0 <= d < 10
  {
    ('0' as int + d) as char
  }

  /** `String(n)` for a non-negative integer, as used in a template literal. */
  function NatToDecimal(n: nat): string
    decreases n
  {
    if n < 10 then [DecimalDigit(n)] else NatToDecimal(n / 10) + [DecimalDigit(n % 10)]
  }
}
