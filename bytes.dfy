/** Byte strings as handled by the formatter's output buffer. */
module Bytes {

  /** One octet of a file's contents. */
  newtype Byte = x: int | 0 <= x < 256

  type Bytes = seq<Byte>

  /** Horizontal tab. */
  const TAB: Byte := 9
  /** Line feed. */
  const NL: Byte := 10
  /** Carriage return. */
  const CR: Byte := 13

  /** `s` with every byte equal to `b` removed, the others in their order. */
  function Without(s: Bytes, b: Byte): (r: Bytes)
    ensures |r| <= |s|
    ensures b !in r
  {
    if s == [] then []
    else if s[0] == b then Without(s[1..], b)
    else [s[0]] + Without(s[1..], b)
  }

  lemma {:induction false} WithoutAppend(a: Bytes, c: Bytes, b: Byte)
    ensures Without(a + c, b) == Without(a, b) + Without(c, b)
  {
    if a == [] {
      assert a + c == c;
    } else {
      assert (a + c)[0] == a[0];
      assert (a + c)[1..] == a[1..] + c;
      WithoutAppend(a[1..], c, b);
      if a[0] != b {
        calc {
          Without(a + c, b);
          [a[0]] + Without(a[1..] + c, b);
          [a[0]] + (Without(a[1..], b) + Without(c, b));
          ([a[0]] + Without(a[1..], b)) + Without(c, b);
        }
      }
    }
  }

  /** `k` copies of byte `b`. */
  function Repeat(b: Byte, k: nat): (r: Bytes)
    ensures |r| == k
    ensures forall i :: 0 <= i < k ==> r[i] == b
  {
    if k == 0 then [] else [b] + Repeat(b, k - 1)
  }

  /** The length of the run of `b` bytes at the front of `s`. */
  function RunLength(s: Bytes, b: Byte): (k: nat)
    ensures k <= |s|
    ensures k < |s| ==> s[k] != b
  {
    if s == [] || s[0] != b then 0 else 1 + RunLength(s[1..], b)
  }

  /** Every byte of the run is `b`. */
  lemma {:induction false} RunLengthAll(s: Bytes, b: Byte)
    ensures forall i :: 0 <= i < RunLength(s, b) ==> s[i] == b
  {
    if s != [] && s[0] == b {
      RunLengthAll(s[1..], b);
    }
  }

  /** A run of `b` stops at the first other byte, wherever the text goes on. */
  lemma {:induction false} RunLengthAppend(s: Bytes, t: Bytes, b: Byte)
    requires RunLength(s, b) < |s|
    ensures RunLength(s + t, b) == RunLength(s, b)
  {
    var k := RunLength(s, b);
    RunLengthAll(s, b);
    assert (s + t)[k] == s[k];
    assert forall i :: 0 <= i < k ==> (s + t)[i] == s[i];
    RunLengthUnique(s + t, b, k);
  }

  lemma {:induction false} RunLengthUnique(s: Bytes, b: Byte, k: nat)
    requires k <= |s|
    requires forall i :: 0 <= i < k ==> s[i] == b
    requires k < |s| ==> s[k] != b
    ensures RunLength(s, b) == k
  {
    RunLengthAll(s, b);
  }

  /** A run of `k` copies of `b` followed by another byte or nothing is a run of length `k`. */
  lemma {:induction false} RunLengthRepeat(b: Byte, k: nat, rest: Bytes)
    requires rest == [] || rest[0] != b
    ensures RunLength(Repeat(b, k) + rest, b) == k
    ensures (Repeat(b, k) + rest)[..k] == Repeat(b, k)
    ensures (Repeat(b, k) + rest)[k..] == rest
  {
    var run := Repeat(b, k);
    var u := run + rest;
    assert forall i :: 0 <= i < k ==> u[i] == run[i];
    RunLengthUnique(u, b, k);
    assert u[..k] == run;
    assert u[k..] == rest;
  }
}
