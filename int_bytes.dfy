/**
 * The integer <-> byte primitives the wire format is built on, as Python
 * defines them for unsigned big-endian conversion:
 * int.bit_length, int.to_bytes(n, "big") and int.from_bytes(bs, "big").
 */
module IntBytes {
  import opened Wrappers

  type byte = b: int | 0 <= b < 256

  function Abs(x: int): nat { if x < 0 then -x else x }

  function Pow2(n: nat): (p: nat)
    ensures p >= 1
  {
    if n == 0 then 1 else 2 * Pow2(n - 1)
  }

  function Pow256(n: nat): (p: nat)
    ensures p >= 1
  {
    if n == 0 then 1 else 256 * Pow256(n - 1)
  }

  /** int.bit_length: the number of binary digits of |x|, 0 for 0. */
  function BitLength(x: int): nat
    decreases Abs(x)
  {
    if x == 0 then 0 else 1 + BitLength(Abs(x) / 2)
  }

  /** |x| has exactly BitLength(x) binary digits: it is below 2^b and, unless 0, at least 2^(b-1). */
  lemma {:induction false} BitLengthBounds(x: int)
    ensures Abs(x) < Pow2(BitLength(x))
    ensures BitLength(x) > 0 ==> Pow2(BitLength(x) - 1) <= Abs(x)
    decreases Abs(x)
  {
    if x != 0 {
      BitLengthBounds(Abs(x) / 2);
    }
  }

  lemma {:induction false} Pow2Eight(k: nat)
    ensures Pow2(8 * k) == Pow256(k)
  {
    if k > 0 {
      Pow2Eight(k - 1);
      Pow2Split(8, 8 * (k - 1));
      assert Pow2(8) == 256;
    }
  }

  lemma {:induction false} Pow2Split(a: nat, b: nat)
    ensures Pow2(a + b) == Pow2(a) * Pow2(b)
  {
    if a > 0 {
      Pow2Split(a - 1, b);
    }
  }

  lemma {:induction false} Pow2Monotone(a: nat, b: nat)
    requires a <= b
    ensures Pow2(a) <= Pow2(b)
  {
    if a < b {
      Pow2Monotone(a, b - 1);
    }
  }

  lemma {:induction false} Pow256Monotone(a: nat, b: nat)
    requires a <= b
    ensures Pow256(a) <= Pow256(b)
  {
    if a < b {
      Pow256Monotone(a, b - 1);
    }
  }

  /** int.from_bytes(bs, "big") for unsigned values; the empty string reads as 0. */
  function FromBytes(bs: seq<byte>): nat
  {
    if bs == [] then 0 else FromBytes(bs[..|bs| - 1]) * 256 + bs[|bs| - 1]
  }

  /** n bytes hold values below 256^n. */
  lemma {:induction false} FromBytesBound(bs: seq<byte>)
    ensures FromBytes(bs) < Pow256(|bs|)
  {
    if bs != [] {
      FromBytesBound(bs[..|bs| - 1]);
    }
  }

  /** The n-byte big-endian digits of x. */
  function BigEndian(x: nat, n: nat): seq<byte>
    requires x < Pow256(n)
  {
    if n == 0 then [] else BigEndian(x / 256, n - 1) + [x % 256]
  }

  /** There are n digits, and they read back as x. */
  lemma {:induction false} BigEndianReadsBack(x: nat, n: nat)
    requires x < Pow256(n)
    ensures |BigEndian(x, n)| == n && FromBytes(BigEndian(x, n)) == x
  {
    if n > 0 {
      BigEndianReadsBack(x / 256, n - 1);
      var r := BigEndian(x, n);
      assert r[..|r| - 1] == BigEndian(x / 256, n - 1);
    }
  }

  /** x.to_bytes(n, "big"): None where Python raises OverflowError (x negative or too wide). */
  function ToBytes(x: int, n: nat): (r: Option<seq<byte>>)
    ensures r.Some? <==> 0 <= x < Pow256(n)
  {
    if 0 <= x < Pow256(n) then Some(BigEndian(x, n)) else None
  }

  /** int.from_bytes inverts int.to_bytes: the n bytes read back as x. */
  lemma ToBytesReadsBack(x: int, n: nat)
    requires ToBytes(x, n).Some?
    ensures |ToBytes(x, n).value| == n && FromBytes(ToBytes(x, n).value) == x
  {
    BigEndianReadsBack(x, n);
  }

  /** Two byte strings of one length that read as the same integer are equal. */
  lemma {:induction false} FromBytesInjective(a: seq<byte>, b: seq<byte>)
    requires |a| == |b| && FromBytes(a) == FromBytes(b)
    ensures a == b
  {
    if a != [] {
      var n := |a| - 1;
      assert FromBytes(a[..n]) * 256 + a[n] == FromBytes(b[..n]) * 256 + b[n];
      assert a[n] == b[n] && FromBytes(a[..n]) == FromBytes(b[..n]);
      FromBytesInjective(a[..n], b[..n]);
      assert a == a[..n] + [a[n]] && b == b[..n] + [b[n]];
    }
  }
}
