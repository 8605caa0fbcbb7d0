/** The rolling checksum of src/rsync.rs: a = sum of w[i], b = sum of (n - i) * w[i]. */
module RollingChecksum {
  import opened Bytes

  /** The largest block length any peer may use (`block_len_for(u64::MAX)`). */
  const MAX_BLOCK := 0x10_0000

  function SumA(w: seq<byte>): nat
  {
    if w == [] then 0 else w[0] + SumA(w[1..])
  }

  function SumB(w: seq<byte>): nat
  {
    if w == [] then 0 else |w| * w[0] + SumB(w[1..])
  }

  lemma {:induction false} Bounds(w: seq<byte>)
    ensures SumA(w) <= 0xff * |w|
    ensures SumB(w) <= 0xff * |w| * |w|
  {
    if w != [] {
      var n := |w| - 1;
      Bounds(w[1..]);
      assert |w| * w[0] <= |w| * 0xff by { MulMonotone(|w|, w[0], 0xff); }
      assert 0xff * |w| * |w| == 0xff * n * n + 2 * (0xff * n) + 0xff;
      assert |w| * 0xff == 0xff * n + 0xff;
    }
  }

  lemma MulMonotone(k: nat, x: nat, y: nat)
    requires x <= y
    ensures k * x <= k * y
  {}

  lemma MulSucc(k: nat, x: nat)
    ensures (k + 1) * x == k * x + x
  {}

  /** For every legal window both sums stay far below 2^64. */
  lemma FitsU64(w: seq<byte>)
    requires |w| <= MAX_BLOCK
    ensures SumA(w) <= 0x1000_0000
    ensures SumB(w) <= 0x1_0000_0000_0000
  {
    Bounds(w);
    MulMonotone(0xff * |w|, |w|, MAX_BLOCK);
  }

  /** The sums of every window, byte after byte. */
  lemma {:induction false} SumAppend(w: seq<byte>, x: byte)
    ensures SumA([]) == 0 && SumB([]) == 0
    ensures SumA(w + [x]) == SumA(w) + x
    ensures SumB(w + [x]) == SumB(w) + SumA(w) + x
  {
    if w == [] {
      assert SumB([x]) == x + SumB([]);
    } else {
      var wx := w + [x];
      assert wx[1..] == w[1..] + [x] && wx[0] == w[0] && |wx| == |w| + 1;
      SumAppend(w[1..], x);
      MulSucc(|w|, w[0]);
    }
  }

  /** Sliding a window: what `roll` computes from the two old sums. */
  lemma SumSlide(w: seq<byte>, x: byte)
    requires w != []
    ensures SumA(w[1..] + [x]) == SumA(w) - w[0] + x
    ensures SumB(w[1..] + [x]) == SumB(w) - |w| * w[0] + SumA(w[1..] + [x])
  {
    SumAppend(w[1..], x);
  }

  /** `rollsum`: every intermediate value fits in a u64 for a legal window. */
  method Rollsum(w: seq<byte>) returns (a: u64, b: u64)
    requires |w| <= MAX_BLOCK
    ensures a as int == SumA(w) && b as int == SumB(w)
  {
    FitsU64(w);
    var n := |w| as u64;
    a, b := 0, 0;
    for i := 0 to |w|
      invariant a as int + SumA(w[i..]) == SumA(w)
      invariant b as int + SumB(w[i..]) == SumB(w)
    {
      assert w[i..][1..] == w[i + 1..];
      a := a + w[i] as u64;
      assert (n as int - i) * w[i] <= SumB(w);
      b := b + (n - i as u64) * (w[i] as u64);
    }
  }

  /** The two u64 expressions of `roll` neither underflow nor overflow. */
  lemma SumsAfterRoll(w: seq<byte>, x: byte, drop: nat) returns (after: seq<byte>)
    requires w != [] && |w| <= MAX_BLOCK && drop == |w| * w[0]
    ensures after == w[1..] + [x]
    ensures w[0] <= SumA(w) <= 0x1000_0000
    ensures drop <= 0x1000_0000 && drop <= SumB(w) <= 0x1_0000_0000_0000
    ensures SumA(after) == SumA(w) - w[0] + x
    ensures SumB(after) == SumB(w) - drop + SumA(after)
  {
    after := w[1..] + [x];
    FitsU64(w);
    SumSlide(w, x);
    MulMonotone(|w|, w[0], 0x100);
  }

  /** `roll`: the sums of the slid window from those of the window `w`, in u64
    * arithmetic that neither underflows nor overflows. */
  method Roll(a0: u64, b0: u64, out_b: byte, in_b: byte, n: u64, ghost w: seq<byte>) returns (a: u64, b: u64)
    requires w != [] && w[0] == out_b && |w| == n as int <= MAX_BLOCK
    requires a0 as int == SumA(w) && b0 as int == SumB(w)
    ensures a as int == SumA(w[1..] + [in_b])
    ensures b as int == SumB(w[1..] + [in_b])
  {
    ghost var after := SumsAfterRoll(w, in_b, n as int * out_b);
    a := a0 - out_b as u64 + in_b as u64;
    b := b0 - n * (out_b as u64) + a;
  }
}
