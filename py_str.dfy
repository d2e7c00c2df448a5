/**
 * The Python string operations the handler relies on, over `seq<char>`:
 * slicing with possibly negative bounds, `str.find`, `str(int)`, `int(str)`,
 * `str.isdigit` and `str.lower` (the last three on ASCII text).
 */
module PyStr {
  import opened Wrappers

  predicate IsDigit(c: char) { '0' <= c <= '9' }

  predicate AllDigits(s: string) { forall i :: 0 <= i < |s| ==> IsDigit(s[i]) }

  predicate NoDigits(s: string) { forall i :: 0 <= i < |s| ==> !IsDigit(s[i]) }

  /** `str.isdigit()`: true for a non-empty run of digits only. */
  predicate IsDigitString(s: string) { s != [] && AllDigits(s) }

  function DigitValue(c: char): (d: nat)
    requires IsDigit(c)
    ensures d < 10
  {
    c as int - '0' as int
  }

  function DigitChar(d: nat): (c: char)
    requires d < 10
    ensures IsDigit(c) && DigitValue(c) == d
  {
    ('0' as int + d) as char
  }

  /** `int(s)` for a run of ASCII digits (leading zeros allowed, as in Python). */
  function DecimalValue(s: string): nat
    requires AllDigits(s)
    decreases |s|
  {
    if s == [] then 0 else 10 * DecimalValue(s[..|s| - 1]) + DigitValue(s[|s| - 1])
  }

  /** `str(n)` for a non-negative integer: decimal digits, no leading zero. */
  function NatToString(n: nat): (s: string)
    ensures IsDigitString(s)
    ensures |s| > 1 ==> s[0] != '0'
    ensures DecimalValue(s) == n
    decreases n
  {
    if n < 10 then [DigitChar(n)]
    else
      var prefix := NatToString(n / 10);
      var s := prefix + [DigitChar(n % 10)];
      assert s[..|s| - 1] == prefix;
      s
  }

  /** `str(i)` for any integer. */
  function IntToString(i: int): (s: string)
    ensures s != []
  {
    if i < 0 then "-" + NatToString(-i) else NatToString(i)
  }

  /**
   * `int(s)` on an optional sign followed by ASCII digits; anything else is
   * the ValueError Python raises, here None.
   */
  function ParseInt(s: string): (r: Option<int>)
    ensures r.Some? <==> IsDigitString(s) || (|s| > 1 && (s[0] == '-' || s[0] == '+') && IsDigitString(s[1..]))
  {
    if IsDigitString(s) then Some(DecimalValue(s))
    else if |s| > 1 && s[0] == '-' && IsDigitString(s[1..]) then Some(-(DecimalValue(s[1..]) as int))
    else if |s| > 1 && s[0] == '+' && IsDigitString(s[1..]) then Some(DecimalValue(s[1..]))
    else None
  }

  /** `int(str(i)) == i`: printing an integer and parsing it back is the identity. */
  lemma ParseIntToString(i: int)
    ensures ParseInt(IntToString(i)) == Some(i)
  {
    if i < 0 {
      var d := NatToString(-i);
      assert IntToString(i)[1..] == d;
      assert !IsDigit(IntToString(i)[0]);
    }
  }

  /** `str` is injective on integers. */
  lemma IntToStringInjective(i: int, j: int)
    requires IntToString(i) == IntToString(j)
    ensures i == j
  {
    ParseIntToString(i);
    ParseIntToString(j);
  }

  /** Python's normalisation of a slice bound `i` against a sequence of length `len`. */
  function SliceBound(i: int, len: nat): (k: nat)
    ensures k <= len
  {
    if i < 0 then (if len + i < 0 then 0 else len + i)
    else if i > len then len
    else i
  }

  /** `s[i:]` */
  function SliceFrom(s: string, i: int): (r: string)
    ensures |r| <= |s| && s == s[..|s| - |r|] + r
    ensures 0 <= i <= |s| ==> |r| == |s| - i
    ensures i >= |s| ==> r == []
    ensures i < 0 ==> |r| == if -i < |s| then -i else |s|
  {
    s[SliceBound(i, |s|)..]
  }

  /** `s[:j]` */
  function SliceTo(s: string, j: int): (r: string)
    ensures |r| <= |s| && s == r + s[|r|..]
    ensures 0 <= j <= |s| ==> |r| == j
    ensures j >= |s| ==> r == s
    ensures j < 0 ==> |r| == if -j < |s| then |s| + j else 0
  {
    s[..SliceBound(j, |s|)]
  }

  predicate OccursAt(s: string, sub: string, i: nat) {
    i + |sub| <= |s| && s[i..i + |sub|] == sub
  }

  /** `s.find(sub, start)`: the first index at or after `start` where `sub` occurs, or -1. */
  function FindFrom(s: string, sub: string, start: nat): (r: int)
    requires start <= |s|
    ensures r == -1 || (start <= r <= |s| && OccursAt(s, sub, r))
    ensures r == -1 ==> forall k :: start <= k <= |s| ==> !OccursAt(s, sub, k)
    ensures r != -1 ==> forall k :: start <= k < r ==> !OccursAt(s, sub, k)
    decreases |s| - start
  {
    if OccursAt(s, sub, start) then start
    else if start == |s| then -1
    else FindFrom(s, sub, start + 1)
  }

  /** `s.find(sub)` */
  function Find(s: string, sub: string): (r: int)
    ensures r == -1 <==> forall k :: 0 <= k <= |s| ==> !OccursAt(s, sub, k)
    ensures r != -1 ==> 0 <= r && OccursAt(s, sub, r) && forall k :: 0 <= k < r ==> !OccursAt(s, sub, k)
  {
    FindFrom(s, sub, 0)
  }

  predicate IsUpper(c: char) { 'A' <= c <= 'Z' }

  /**
   * `s.lower()` on ASCII letters: every capital becomes the small letter 32 code
   * points above it, every other character stays, and no capital is left.
   */
  function Lower(s: string): (r: string)
    ensures |r| == |s|
    ensures forall i :: 0 <= i < |s| && !IsUpper(s[i]) ==> r[i] == s[i]
    ensures forall i :: 0 <= i < |s| && IsUpper(s[i]) ==> 'a' <= r[i] <= 'z' && r[i] as int - s[i] as int == 'a' as int - 'A' as int
    ensures forall i :: 0 <= i < |r| ==> !IsUpper(r[i])
  {
    seq(|s|, i requires 0 <= i < |s| => if IsUpper(s[i]) then (s[i] as int - 'A' as int + 'a' as int) as char else s[i])
  }

  /** Lower-casing text that has no upper-case ASCII letter leaves it as it is. */
  lemma LowerNoUpper(s: string)
    requires forall i :: 0 <= i < |s| ==> !('A' <= s[i] <= 'Z')
    ensures Lower(s) == s
  {
  }

  /** Lowering twice is lowering once. */
  lemma LowerIdempotent(s: string)
    ensures Lower(Lower(s)) == Lower(s)
  {
    LowerNoUpper(Lower(s));
  }

  /** Lowering works character by character, so it distributes over concatenation. */
  lemma LowerAppend(a: string, b: string)
    ensures Lower(a + b) == Lower(a) + Lower(b)
  {
    forall i | 0 <= i < |a + b|
      ensures Lower(a + b)[i] == (Lower(a) + Lower(b))[i]
    {
      if i < |a| {
        assert (a + b)[i] == a[i];
      } else {
        assert (a + b)[i] == b[i - |a|];
      }
    }
  }

  /** A digit is not a capital and no capital is a digit: lowering keeps every digit where it was. */
  lemma LowerKeepsDigits(s: string)
    ensures forall i :: 0 <= i < |s| ==> (IsDigit(Lower(s)[i]) <==> IsDigit(s[i]))
  {
  }
}
