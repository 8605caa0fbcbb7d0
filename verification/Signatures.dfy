/** Block signatures of src/rsync.rs: how they are made, and their wire form. */
module Signatures {
  import opened Bytes
  import opened RollingChecksum

  const STRONG_LEN := 16
  const RECORD := 32  // 8 + 8 + STRONG_LEN
  const MIN_BLOCK := 2048

  type Strong = s: seq<byte> | |s| == STRONG_LEN witness seq(STRONG_LEN, _ => 0)

  /** The truncated BLAKE2b hash, about which nothing is assumed. */
  type StrongHash = seq<byte> -> Strong

  datatype BlockSig = BlockSig(a: u64, b: u64, strong: Strong)

  // ----- block length -----

  /** The integer square root. */
  function Isqrt(n: nat): (r: nat)
    ensures r * r <= n < (r + 1) * (r + 1)
  {
    if n == 0 then 0
    else
      var r := Isqrt(n - 1);
      if (r + 1) * (r + 1) <= n then r + 1 else r
  }

  function BlockLenFor(len: nat): (bl: nat)
    ensures MIN_BLOCK <= bl <= MAX_BLOCK
    ensures MIN_BLOCK < bl ==> bl * bl <= len
    ensures bl < MAX_BLOCK ==> len < (bl + 1) * (bl + 1)
  {
    var r := Isqrt(len);
    if r < MIN_BLOCK then
      assert (r + 1) * (r + 1) <= (MIN_BLOCK + 1) * (MIN_BLOCK + 1) by { Squares(r + 1, MIN_BLOCK + 1); }
      MIN_BLOCK
    else if r > MAX_BLOCK then
      assert MAX_BLOCK * MAX_BLOCK <= r * r by { Squares(MAX_BLOCK, r); }
      MAX_BLOCK
    else r
  }

  lemma Squares(x: nat, y: nat)
    requires x <= y
    ensures x * x <= y * y
  {
    MulMonotone(x, x, y);
    MulMonotone(y, x, y);
  }

  // ----- blocks and signatures -----

  predicate LegalBlockLen(bl: nat)
  {
    0 < bl <= MAX_BLOCK
  }

  /** How a window is summarized: rolling checksum and strong hash. The results
    * below hold for any such function; `DigestOf` is the one the program uses. */
  type Digest = seq<byte> -> BlockSig

  /** The record of one window, its sums taken modulo 2^64. */
  function SigOf(h: StrongHash, w: seq<byte>): BlockSig
  {
    BlockSig((SumA(w) % 0x1_0000_0000_0000_0000) as u64, (SumB(w) % 0x1_0000_0000_0000_0000) as u64, h(w))
  }

  function DigestOf(h: StrongHash): Digest
  {
    (w: seq<byte>) => SigOf(h, w)
  }

  /** For a legal window nothing is lost to the modulus. */
  lemma DigestIs(h: StrongHash, w: seq<byte>)
    requires |w| <= MAX_BLOCK
    ensures DigestOf(h)(w).a as int == SumA(w)
    ensures DigestOf(h)(w).b as int == SumB(w)
    ensures DigestOf(h)(w).strong == h(w)
  {
    FitsU64(w);
    ModSmall(SumA(w), 0x1_0000_0000_0000_0000);
    ModSmall(SumB(w), 0x1_0000_0000_0000_0000);
  }

  lemma ModSmall(x: nat, m: nat)
    requires x < m
    ensures x % m == x
  {}

  function Signature(f: Digest, data: seq<byte>, bl: nat): (sigs: seq<BlockSig>)
    requires LegalBlockLen(bl)
    decreases |data|
  {
    if data == [] then []
    else if |data| <= bl then [f(data)]
    else [f(data[..bl])] + Signature(f, data[bl..], bl)
  }

  /** `file_len.div_ceil(block_len)`. */
  function BlockCount(len: nat, bl: nat): nat
    requires bl > 0
  {
    (len + bl - 1) / bl
  }

  /** Block `k` of `data`; the last one may be short. */
  function Block(data: seq<byte>, bl: nat, k: nat): (w: seq<byte>)
    requires LegalBlockLen(bl) && k * bl < |data|
    ensures 0 < |w| <= bl
  {
    var end := k * bl + bl;
    data[k * bl..if end <= |data| then end else |data|]
  }

  lemma BlockOfTail(data: seq<byte>, bl: nat, k: nat)
    requires LegalBlockLen(bl) && bl < |data|
    ensures (k + 1) * bl < |data| <==> k * bl < |data[bl..]|
    ensures k * bl < |data[bl..]| ==> Block(data[bl..], bl, k) == Block(data, bl, k + 1)
  {
    assert (k + 1) * bl == k * bl + bl;
  }

  lemma BlockCountStep(len: nat, bl: nat)
    requires 0 < bl < len
    ensures BlockCount(len, bl) == 1 + BlockCount(len - bl, bl)
  {
    var m := len - 1;
    assert (m + bl) / bl == m / bl + 1 by { DivAdd(m, bl); }
  }

  lemma DivAdd(m: nat, d: nat)
    requires d > 0
    ensures (m + d) / d == m / d + 1
  {
    var q, r := m / d, m % d;
    assert m + d == (q + 1) * d + r;
    DivUnique(m + d, d, q + 1, r);
  }

  lemma DivUnique(n: nat, d: nat, q: nat, r: nat)
    requires d > 0 && n == q * d + r && r < d
    ensures n / d == q
  {
    var q', r' := n / d, n % d;
    assert n == q' * d + r';
    if q' < q {
      MulMonotone(d, q' + 1, q);
      assert false;
    } else if q' > q {
      MulMonotone(d, q + 1, q');
      assert false;
    }
  }

  lemma DivLower(n: nat, d: nat)
    requires d > 0
    ensures n / d * d <= n
  {}

  lemma CountBound(len: nat, bl: nat, k: nat)
    requires bl > 0 && len <= k * bl
    ensures BlockCount(len, bl) <= k
  {
    var blocks := BlockCount(len, bl);
    DivLower(len + bl - 1, bl);
    MulMonotone(bl, k + 1, if blocks <= k + 1 then k + 1 else blocks);
    MulSucc(bl, k);
  }

  /** Entry `k` of a signature describes block `k`, and every block has one. */
  lemma {:induction false} SignatureAt(f: Digest, data: seq<byte>, bl: nat, k: nat)
    requires LegalBlockLen(bl)
    ensures k < |Signature(f, data, bl)| <==> k * bl < |data|
    ensures k * bl < |data| ==> Signature(f, data, bl)[k] == f(Block(data, bl, k))
    decreases |data|
  {
    var sigs := Signature(f, data, bl);
    if k == 0 {
      assert k * bl == 0;
      if data != [] { assert Block(data, bl, k) == if |data| <= bl then data else data[..bl]; }
    } else if |data| <= bl {
      MulMonotone(bl, 1, k);
      assert |sigs| <= 1;
    } else {
      BlockOfTail(data, bl, k - 1);
      SignatureAt(f, data[bl..], bl, k - 1);
      assert sigs[1..] == Signature(f, data[bl..], bl);
      if k < |sigs| { assert sigs[k] == sigs[1..][k - 1]; }
    }
  }

  lemma {:induction false} SignatureLength(f: Digest, data: seq<byte>, bl: nat)
    requires LegalBlockLen(bl)
    ensures |Signature(f, data, bl)| == BlockCount(|data|, bl)
    decreases |data|
  {
    if data == [] {
      DivUnique(bl - 1, bl, 0, bl - 1);
    } else if |data| <= bl {
      DivUnique(|data| + bl - 1, bl, 1, |data| - 1);
    } else {
      BlockCountStep(|data|, bl);
      SignatureLength(f, data[bl..], bl);
    }
  }

  // ----- faithfulness -----

  /** No two different blocks at the same place share a checksum and a strong hash. */
  ghost predicate BlocksFaithful(f: Digest, x: seq<byte>, y: seq<byte>, bl: nat)
    requires LegalBlockLen(bl)
  {
    forall k: nat {:trigger Block(x, bl, k)} | k * bl < |x| && k * bl < |y| ::
      f(Block(x, bl, k)) == f(Block(y, bl, k)) ==> Block(x, bl, k) == Block(y, bl, k)
  }

  lemma FaithfulTail(f: Digest, x: seq<byte>, y: seq<byte>, bl: nat)
    requires LegalBlockLen(bl) && bl < |x| && bl < |y| && BlocksFaithful(f, x, y, bl)
    ensures BlocksFaithful(f, x[bl..], y[bl..], bl)
  {
    forall k: nat | k * bl < |x[bl..]| && k * bl < |y[bl..]| &&
      f(Block(x[bl..], bl, k)) == f(Block(y[bl..], bl, k))
      ensures Block(x[bl..], bl, k) == Block(y[bl..], bl, k)
    {
      BlockOfTail(x, bl, k);
      BlockOfTail(y, bl, k);
      assert Block(x, bl, k + 1) == Block(y, bl, k + 1);
    }
  }

  lemma {:induction false} EqualSignatures(f: Digest, x: seq<byte>, y: seq<byte>, bl: nat)
    requires LegalBlockLen(bl) && BlocksFaithful(f, x, y, bl)
    requires Signature(f, x, bl) == Signature(f, y, bl)
    ensures x == y
    decreases |x|
  {
    if x != [] && y != [] {
      assert Signature(f, x, bl)[0] == Signature(f, y, bl)[0];
      assert 0 * bl == 0;
      SignatureAt(f, x, bl, 0);
      SignatureAt(f, y, bl, 0);
      assert Block(x, bl, 0) == Block(y, bl, 0);
      if bl < |x| && bl < |y| {
        FaithfulTail(f, x, y, bl);
        assert Signature(f, x, bl)[1..] == Signature(f, x[bl..], bl);
        assert Signature(f, y, bl)[1..] == Signature(f, y[bl..], bl);
        EqualSignatures(f, x[bl..], y[bl..], bl);
        assert x == x[..bl] + x[bl..] && y == y[..bl] + y[bl..];
      }
    }
  }

  /** Comparing signatures compares contents, and when the signatures agree the
    * contents do exactly when no block collides: what the verification step of a
    * sync relies on. */
  lemma SignatureFaithful(f: Digest, x: seq<byte>, y: seq<byte>, bl: nat)
    requires LegalBlockLen(bl)
    ensures BlocksFaithful(f, x, y, bl) ==> (Signature(f, x, bl) == Signature(f, y, bl) <==> x == y)
    ensures Signature(f, x, bl) == Signature(f, y, bl) ==> (BlocksFaithful(f, x, y, bl) <==> x == y)
  {
    if BlocksFaithful(f, x, y, bl) && Signature(f, x, bl) == Signature(f, y, bl) {
      EqualSignatures(f, x, y, bl);
    }
  }

  // ----- wire form -----

  function RecordBytes(s: BlockSig): (r: seq<byte>)
    ensures |r| == RECORD
  {
    U64ToLe(s.a) + U64ToLe(s.b) + s.strong
  }

  function SigBytes(sigs: seq<BlockSig>): (r: seq<byte>)
    ensures |r| == RECORD * |sigs|
  {
    if sigs == [] then [] else RecordBytes(sigs[0]) + SigBytes(sigs[1..])
  }

  function RecordFrom(buf: seq<byte>): BlockSig
    requires |buf| == RECORD
  {
    BlockSig(U64FromLe(buf[..8]), U64FromLe(buf[8..16]), buf[16..])
  }

  function Records(buf: seq<byte>): (sigs: seq<BlockSig>)
    requires |buf| % RECORD == 0
  {
    if buf == [] then [] else [RecordFrom(buf[..RECORD])] + Records(buf[RECORD..])
  }

  function ParseSig(buf: seq<byte>): Result<seq<BlockSig>>
  {
    if |buf| % RECORD != 0 then Err("corrupt signature") else Ok(Records(buf))
  }

  lemma RecordRoundTrip(s: BlockSig)
    ensures RecordFrom(RecordBytes(s)) == s
  {
    var r := RecordBytes(s);
    assert r[..8] == U64ToLe(s.a) && r[8..16] == U64ToLe(s.b) && r[16..] == s.strong;
    U64RoundTrip(s.a);
    U64RoundTrip(s.b);
  }

  lemma RecordWireRoundTrip(buf: seq<byte>)
    requires |buf| == RECORD
    ensures RecordBytes(RecordFrom(buf)) == buf
  {
    U64WireRoundTrip(buf[..8]);
    U64WireRoundTrip(buf[8..16]);
    assert buf == buf[..8] + buf[8..16] + buf[16..];
  }

  /** What is sent is what is parsed. */
  lemma {:induction false} SigRoundTrip(sigs: seq<BlockSig>)
    ensures ParseSig(SigBytes(sigs)) == Ok(sigs)
  {
    assert |SigBytes(sigs)| % RECORD == 0;
    if sigs != [] {
      var r := SigBytes(sigs);
      assert r[..RECORD] == RecordBytes(sigs[0]) && r[RECORD..] == SigBytes(sigs[1..]);
      RecordRoundTrip(sigs[0]);
      SigRoundTrip(sigs[1..]);
      assert sigs == [sigs[0]] + sigs[1..];
    }
  }

  /** Parsing loses nothing: only the bytes that were parsed serialize to the result. */
  lemma {:induction false} SigWireRoundTrip(buf: seq<byte>)
    requires |buf| % RECORD == 0
    ensures SigBytes(Records(buf)) == buf
  {
    if buf != [] {
      RecordWireRoundTrip(buf[..RECORD]);
      SigWireRoundTrip(buf[RECORD..]);
      assert Records(buf)[1..] == Records(buf[RECORD..]);
      assert buf == buf[..RECORD] + buf[RECORD..];
    }
  }

  lemma SigBytesFrom(sigs: seq<BlockSig>, i: nat)
    requires i <= |sigs|
    ensures SigBytes(sigs[i..]) == if i == |sigs| then [] else RecordBytes(sigs[i]) + SigBytes(sigs[i + 1..])
  {
    if i < |sigs| {
      assert sigs[i..][1..] == sigs[i + 1..];
    }
  }

  /** Record `k` takes 32 bytes: both sums, least significant byte first, and the hash. */
  lemma {:induction false} SigLayout(sigs: seq<BlockSig>, k: nat)
    requires k < |sigs|
    ensures var r, i := SigBytes(sigs), 32 * k;
            && |r| == 32 * |sigs|
            && FromLe(r[i..i + 8]) == sigs[k].a as int
            && FromLe(r[i + 8..i + 16]) == sigs[k].b as int
            && r[i + 16..i + 32] == sigs[k].strong
  {
    hide U64ToLe, SigBytes, FromLe;
    var r, i := SigBytes(sigs), 32 * k;
    RecordAt(sigs, k);
    var one := r[i..i + 32];
    SliceOfSlice(r, i, 0, 8);
    SliceOfSlice(r, i, 8, 16);
    SliceOfSlice(r, i, 16, 32);
    U64Bytes(sigs[k].a);
    U64Bytes(sigs[k].b);
    assert one[0..8] == U64ToLe(sigs[k].a) && one[8..16] == U64ToLe(sigs[k].b) && one[16..32] == sigs[k].strong;
  }

  lemma SliceOfSlice(r: seq<byte>, i: nat, from: nat, to: nat)
    requires from <= to <= 32 && i + 32 <= |r|
    ensures r[i..i + 32][from..to] == r[i + from..i + to]
  {
    var one, x, y := r[i..i + 32], r[i..i + 32][from..to], r[i + from..i + to];
    forall k | 0 <= k < |x| ensures x[k] == y[k] {
      assert x[k] == one[from + k] == r[i + (from + k)];
    }
  }

  lemma {:induction false} RecordAt(sigs: seq<BlockSig>, k: nat)
    requires k < |sigs|
    ensures |SigBytes(sigs)| == 32 * |sigs| && SigBytes(sigs)[32 * k..32 * k + 32] == RecordBytes(sigs[k])
  {
    hide RecordBytes;
    var r, rest := SigBytes(sigs), SigBytes(sigs[1..]);
    assert r == RecordBytes(sigs[0]) + rest;
    if k > 0 {
      RecordAt(sigs[1..], k - 1);
      assert r[32 * k..32 * k + 32] == rest[32 * (k - 1)..32 * (k - 1) + 32];
    }
  }

  lemma U64Bytes(n: u64)
    ensures FromLe(U64ToLe(n)) == n as int
  {
    PowersOf256();
    FromToLe(n as int, 8);
  }

  method SigToBytes(sigs: seq<BlockSig>) returns (out: seq<byte>)
    ensures out == SigBytes(sigs)
  {
    hide SigBytes, U64ToLe;
    out := [];
    assert sigs[0..] == sigs && [] + SigBytes(sigs) == SigBytes(sigs);
    for i := 0 to |sigs|
      invariant out + SigBytes(sigs[i..]) == SigBytes(sigs)
    {
      ghost var before, rest := out, SigBytes(sigs[i + 1..]);
      SigBytesFrom(sigs, i);
      out := out + U64ToLe(sigs[i].a);
      out := out + U64ToLe(sigs[i].b);
      out := out + sigs[i].strong;
      assert out == before + RecordBytes(sigs[i]);
      assert out + rest == before + (RecordBytes(sigs[i]) + rest);
    }
    SigBytesFrom(sigs, |sigs|);
    assert out + [] == out;
  }

  lemma RecordsStep(buf: seq<byte>)
    requires buf != [] && |buf| % RECORD == 0
    ensures |buf| >= RECORD && |buf[RECORD..]| % RECORD == 0
    ensures Records(buf) ==
            [BlockSig(U64FromLe(buf[..8]), U64FromLe(buf[8..16]), buf[16..16 + STRONG_LEN])] + Records(buf[RECORD..])
  {
    hide U64FromLe, RecordFrom;
    RecordOfPrefix(buf);
  }

  lemma RecordOfPrefix(buf: seq<byte>)
    requires |buf| >= RECORD
    ensures RecordFrom(buf[..RECORD]) == BlockSig(U64FromLe(buf[..8]), U64FromLe(buf[8..16]), buf[16..16 + STRONG_LEN])
  {
    hide U64FromLe;
    var first := buf[..RECORD];
    assert first[..8] == buf[..8] && first[8..16] == buf[8..16] && first[16..] == buf[16..16 + STRONG_LEN];
  }

  method SigFromBytes(wire: seq<byte>) returns (r: Result<seq<BlockSig>>)
    ensures r == ParseSig(wire)
    ensures r.Ok? <==> |wire| % RECORD == 0
    ensures r.Ok? ==> SigBytes(r.value) == wire
  {
    hide Records, SigBytes, U64FromLe;
    if |wire| % RECORD != 0 {
      return Err("corrupt signature");
    }
    SigWireRoundTrip(wire);
    var buf, out := wire, [];
    assert out + Records(buf) == Records(wire);
    while buf != []
      invariant |buf| % RECORD == 0
      invariant out + Records(buf) == Records(wire)
      decreases |buf|
    {
      RecordsStep(buf);
      var a := U64FromLe(buf[..8]);
      var b := U64FromLe(buf[8..16]);
      ghost var before := out;
      out := out + [BlockSig(a, b, buf[16..16 + STRONG_LEN])];
      buf := buf[RECORD..];
      assert out + Records(buf) == before + ([BlockSig(a, b, out[|out| - 1].strong)] + Records(buf));
    }
    NoRecords();
    assert out + [] == out;
    return Ok(out);
  }

  lemma NoRecords()
    ensures Records([]) == []
  {}

  // ----- the size bound on received signatures -----

  /** `check_sig_size`: 32 bytes a block, in saturating 64-bit arithmetic. */
  predicate SigSizeOk(fileLen: nat, bl: nat, sigBytes: nat)
  {
    sigBytes <= SaturatingRecords(BlockCount(fileLen, if bl == 0 then 1 else bl))
  }

  function SaturatingRecords(blocks: nat): nat
  {
    if RECORD * blocks < 0x1_0000_0000_0000_0000 then RECORD * blocks else 0xffff_ffff_ffff_ffff
  }

  /** With any block length, zero counting as one: a 64-bit count of bytes is within the
    * bound exactly if its last record, whole or begun, belongs to a block that starts
    * inside the file. */
  lemma SizeCheckExact(fileLen: nat, bl: nat, n: nat)
    ensures var step, last := if bl == 0 then 1 else bl, (n + 31) / 32;
            SigSizeOk(fileLen, bl, n) <==> n < 0x1_0000_0000_0000_0000 && (n > 0 ==> (last - 1) * step < fileLen)
  {
    var step, last := if bl == 0 then 1 else bl, (n + 31) / 32;
    var blocks := BlockCount(fileLen, step);
    assert n <= 32 * blocks <==> last <= blocks;
    if last > 0 {
      if fileLen <= (last - 1) * step {
        CountBound(fileLen, step, last - 1);
      } else {
        CountReaches(fileLen, step, last - 1);
      }
    }
  }

  lemma CountReaches(len: nat, bl: nat, k: nat)
    requires bl > 0 && k * bl < len
    ensures BlockCount(len, bl) > k
  {
    var n, m := len + bl - 1, (len + bl - 1) / bl;
    assert n == m * bl + n % bl;
    MulSucc(bl, k);
    MulSucc(bl, m);
    MulMonotone(bl, m + 1, if m <= k then k + 1 else m + 1);
  }

  lemma RecordsFit(len: nat, bl: nat)
    requires RECORD <= bl
    ensures RECORD * BlockCount(len, bl) < len + bl
  {
    var blocks := BlockCount(len, bl);
    DivLower(len + bl - 1, bl);
    MulMonotone(blocks, RECORD, bl);
  }

  /** The bound is tight: it admits an honest signature and nothing longer. */
  lemma HonestSigIsTheBound(f: Digest, data: seq<byte>, bl: nat, n: nat)
    requires RECORD <= bl <= MAX_BLOCK && |data| + bl <= 0x1_0000_0000_0000_0000
    ensures SigSizeOk(|data|, bl, n) <==> n <= |SigBytes(Signature(f, data, bl))|
  {
    SignatureLength(f, data, bl);
    RecordsFit(|data|, bl);
    assert bl != 0;
    var blocks := BlockCount(|data|, bl);
    assert |SigBytes(Signature(f, data, bl))| == RECORD * blocks;
    assert SaturatingRecords(blocks) == RECORD * blocks;
  }
}
