/** The greedy delta encoder of src/rsync.rs. `Delta` keeps a rolling checksum
  * and a hash index; `NaiveOps` recomputes both at every offset. */
module DeltaEncoder {
  import opened Bytes
  import opened RollingChecksum
  import opened Signatures
  import opened DeltaOps

  // ----- the naive encoder -----

  /** A linear scan for the lowest index whose record is exactly `key`. */
  function FirstMatch(sigs: seq<BlockSig>, key: BlockSig): (r: Option<nat>)
    ensures r.Some? ==> r.value < |sigs|
  {
    if sigs == [] then None
    else
      var last := |sigs| - 1;
      var earlier := FirstMatch(sigs[..last], key);
      if earlier.Some? then earlier else if sigs[last] == key then Some(last) else None
  }

  lemma {:induction false} FirstMatchIsLowest(sigs: seq<BlockSig>, key: BlockSig)
    ensures var r := FirstMatch(sigs, key);
            if r.Some? then sigs[r.value] == key && key !in sigs[..r.value] else key !in sigs
  {
    if sigs != [] {
      var last := |sigs| - 1;
      FirstMatchIsLowest(sigs[..last], key);
      assert sigs == sigs[..last] + [sigs[last]];
      var r := FirstMatch(sigs[..last], key);
      if r.Some? { assert sigs[..last][..r.value] == sigs[..r.value]; }
    }
  }

  lemma KnownKeyMatches(sigs: seq<BlockSig>, k: nat)
    requires k < |sigs|
    ensures FirstMatch(sigs, sigs[k]).Some?
  {
    FirstMatchIsLowest(sigs, sigs[k]);
  }

  function MatchAt(f: Digest, target: seq<byte>, sigs: seq<BlockSig>, bl: nat, i: nat): Option<nat>
    requires LegalBlockLen(bl) && i + bl <= |target|
  {
    FirstMatch(sigs, f(target[i..i + bl]))
  }

  function LiteralOps(bytes: seq<byte>): seq<Op>
  {
    if bytes == [] then [] else [Literal(bytes)]
  }

  /** Standing at `i` with the literal run `target[lit..i]` pending. */
  function NaiveOps(f: Digest, target: seq<byte>, sigs: seq<BlockSig>, bl: nat, i: nat, lit: nat): seq<Op>
    requires LegalBlockLen(bl) && lit <= i <= |target|
    decreases |target| - i
  {
    if i + bl > |target| then LiteralOps(target[lit..])
    else
      match MatchAt(f, target, sigs, bl, i)
      case Some(ix) =>
        LiteralOps(target[lit..i]) + [Copy(ix)] + NaiveOps(f, target, sigs, bl, i + bl, i + bl)
      case None => NaiveOps(f, target, sigs, bl, i + 1, lit)
  }

  /** `delta` as a function: the bytes of the naive encoder. */
  function DeltaOf(f: Digest, target: seq<byte>, sigs: seq<BlockSig>, bl: nat): seq<byte>
    requires LegalBlockLen(bl)
  {
    Encode(NaiveOps(f, target, sigs, bl, 0, 0))
  }

  // ----- the incremental encoder -----

  /** The indices with checksum `key`, in ascending order: one bucket of the index. */
  function Candidates(sigs: seq<BlockSig>, key: (u64, u64)): (ixs: seq<nat>)
    ensures forall k | 0 <= k < |ixs| :: ixs[k] < |sigs|
  {
    if sigs == [] then []
    else
      var last := |sigs| - 1;
      Candidates(sigs[..last], key) + if (sigs[last].a, sigs[last].b) == key then [last] else []
  }

  type RollIndex = map<(u64, u64), seq<nat>>

  function Bucket(m: RollIndex, key: (u64, u64)): seq<nat>
  {
    if key in m then m[key] else []
  }

  ghost predicate Indexes(m: RollIndex, sigs: seq<BlockSig>)
  {
    forall key :: Bucket(m, key) == Candidates(sigs, key)
  }

  /** `cands.iter().find(..)`. */
  function FindStrong(cands: seq<nat>, sigs: seq<BlockSig>, s: Strong): Option<nat>
    requires forall k | 0 <= k < |cands| :: cands[k] < |sigs|
  {
    if cands == [] then None
    else if sigs[cands[0]].strong == s then Some(cands[0])
    else FindStrong(cands[1..], sigs, s)
  }

  lemma {:induction false} FindStrongAppend(xs: seq<nat>, ys: seq<nat>, sigs: seq<BlockSig>, s: Strong)
    requires forall k | 0 <= k < |xs| :: xs[k] < |sigs|
    requires forall k | 0 <= k < |ys| :: ys[k] < |sigs|
    ensures FindStrong(xs + ys, sigs, s) ==
            if FindStrong(xs, sigs, s).Some? then FindStrong(xs, sigs, s) else FindStrong(ys, sigs, s)
  {
    if xs == [] {
      assert xs + ys == ys;
    } else {
      assert (xs + ys)[0] == xs[0] && (xs + ys)[1..] == xs[1..] + ys;
      FindStrongAppend(xs[1..], ys, sigs, s);
    }
  }

  /** Looking in the bucket is scanning all of the first `k` records. */
  lemma {:induction false} BucketFinds(sigs: seq<BlockSig>, k: nat, key: (u64, u64), s: Strong)
    requires k <= |sigs|
    ensures FindStrong(Candidates(sigs[..k], key), sigs, s) == FirstMatch(sigs[..k], BlockSig(key.0, key.1, s))
  {
    if k > 0 {
      BucketFinds(sigs, k - 1, key, s);
      assert sigs[..k][..k - 1] == sigs[..k - 1];
      var last := if (sigs[k - 1].a, sigs[k - 1].b) == key then [k - 1] else [];
      assert Candidates(sigs[..k], key) == Candidates(sigs[..k - 1], key) + last;
      FindStrongAppend(Candidates(sigs[..k - 1], key), last, sigs, s);
    }
  }

  lemma {:induction false} EncodeAppend(xs: seq<Op>, ys: seq<Op>)
    ensures Encode(xs + ys) == Encode(xs) + Encode(ys)
  {
    if xs == [] {
      assert xs + ys == ys;
    } else {
      assert (xs + ys)[0] == xs[0] && (xs + ys)[1..] == xs[1..] + ys;
      EncodeAppend(xs[1..], ys);
    }
  }

  lemma EncodeRunAndCopy(bytes: seq<byte>, op: Op, rest: seq<Op>)
    ensures Encode(LiteralOps(bytes) + [op] + rest) == Encode(LiteralOps(bytes)) + OpBytes(op) + Encode(rest)
  {
    EncodeAppend(LiteralOps(bytes) + [op], rest);
    EncodeAppend(LiteralOps(bytes), [op]);
    assert Encode([op]) == OpBytes(op) + Encode([]) == OpBytes(op);
  }

  method EmitLiteral(out: seq<byte>, bytes: seq<byte>) returns (r: seq<byte>)
    ensures r == out + Encode(LiteralOps(bytes))
  {
    if bytes == [] {
      return out;
    }
    r := out + [OP_LITERAL];
    r := r + ToLe(|bytes|, 4);
    r := r + bytes;
    assert Encode([Literal(bytes)]) == OpBytes(Literal(bytes)) + Encode([]);
  }

  method EmitCopy(out: seq<byte>, ix: nat) returns (r: seq<byte>)
    ensures r == out + OpBytes(Copy(ix))
  {
    r := out + [OP_COPY];
    r := r + ToLe(ix, 4);
  }

  lemma NothingIndexed(sigs: seq<BlockSig>)
    ensures Indexes(map[], sigs[..0])
  {}

  lemma IndexStep(m: RollIndex, sigs: seq<BlockSig>, k: nat)
    requires k < |sigs| && Indexes(m, sigs[..k])
    ensures var key := (sigs[k].a, sigs[k].b); Indexes(m[key := Bucket(m, key) + [k]], sigs[..k + 1])
  {
    hide Candidates;
    var mine := (sigs[k].a, sigs[k].b);
    var more := m[mine := Bucket(m, mine) + [k]];
    forall key ensures Bucket(more, key) == Candidates(sigs[..k + 1], key) {
      CandidatesStep(sigs, k, key);
      assert Bucket(m, key) == Candidates(sigs[..k], key);
      assert Bucket(m, key) + [] == Bucket(m, key);
    }
  }

  lemma CandidatesStep(sigs: seq<BlockSig>, k: nat, key: (u64, u64))
    requires k < |sigs|
    ensures Candidates(sigs[..k + 1], key) ==
            Candidates(sigs[..k], key) + if (sigs[k].a, sigs[k].b) == key then [k] else []
  {
    assert sigs[..k + 1][..k] == sigs[..k];
  }

  method BuildIndex(sigs: seq<BlockSig>) returns (byRoll: RollIndex)
    requires |sigs| <= U32_LIMIT  // the cast of the index to u32 loses nothing
    ensures Indexes(byRoll, sigs)
  {
    byRoll := map[];
    NothingIndexed(sigs);
    hide Indexes;
    for k := 0 to |sigs|
      invariant Indexes(byRoll, sigs[..k])
    {
      var key := (sigs[k].a, sigs[k].b);
      IndexStep(byRoll, sigs, k);
      byRoll := byRoll[key := Bucket(byRoll, key) + [k]];
    }
    assert sigs[..|sigs|] == sigs;
  }

  /** With the bytes before `lit` encoded in `out`, what is left yields `whole`. */
  ghost predicate Encoded(f: Digest, target: seq<byte>, sigs: seq<BlockSig>, bl: nat,
                          whole: seq<byte>, out: seq<byte>, i: nat, lit: nat)
  {
    && LegalBlockLen(bl)
    && lit <= i <= |target|
    && out + Encode(NaiveOps(f, target, sigs, bl, i, lit)) == whole
  }

  lemma EncodedCopy(f: Digest, target: seq<byte>, sigs: seq<BlockSig>, bl: nat,
                    whole: seq<byte>, out: seq<byte>, i: nat, lit: nat, ix: nat)
    requires Encoded(f, target, sigs, bl, whole, out, i, lit)
    requires i + bl <= |target| && MatchAt(f, target, sigs, bl, i) == Some(ix)
    ensures Encoded(f, target, sigs, bl, whole,
                    out + Encode(LiteralOps(target[lit..i])) + OpBytes(Copy(ix)), i + bl, i + bl)
  {
    var rest := NaiveOps(f, target, sigs, bl, i + bl, i + bl);
    EncodeRunAndCopy(target[lit..i], Copy(ix), rest);
    Assoc(out, Encode(LiteralOps(target[lit..i])), OpBytes(Copy(ix)), Encode(rest));
  }

  lemma Assoc(w: seq<byte>, x: seq<byte>, y: seq<byte>, z: seq<byte>)
    ensures w + (x + y + z) == w + x + y + z
  {}

  lemma EncodedSkip(f: Digest, target: seq<byte>, sigs: seq<BlockSig>, bl: nat,
                    whole: seq<byte>, out: seq<byte>, i: nat, lit: nat)
    requires Encoded(f, target, sigs, bl, whole, out, i, lit)
    requires i + bl <= |target| && MatchAt(f, target, sigs, bl, i).None?
    ensures Encoded(f, target, sigs, bl, whole, out, i + 1, lit)
  {
    assert NaiveOps(f, target, sigs, bl, i, lit) == NaiveOps(f, target, sigs, bl, i + 1, lit);
  }

  lemma EncodedEnd(f: Digest, target: seq<byte>, sigs: seq<BlockSig>, bl: nat,
                   whole: seq<byte>, out: seq<byte>, i: nat, lit: nat)
    requires Encoded(f, target, sigs, bl, whole, out, i, lit)
    requires i + bl > |target|
    ensures out + Encode(LiteralOps(target[lit..])) == whole
  {}

  /** `a` and `b` are the rolling sums of the window at `i`, if it is a full one. */
  ghost predicate Rolling(target: seq<byte>, bl: nat, i: nat, a: u64, b: u64)
  {
    i + bl <= |target| ==> a as int == SumA(target[i..i + bl]) && b as int == SumB(target[i..i + bl])
  }

  method RestartSums(target: seq<byte>, bl: nat, i: nat, a0: u64, b0: u64) returns (a: u64, b: u64)
    requires LegalBlockLen(bl)
    ensures Rolling(target, bl, i, a, b)
  {
    a, b := a0, b0;
    if i + bl <= |target| {
      a, b := Rollsum(target[i..i + bl]);
    }
  }

  method RollOn(target: seq<byte>, bl: nat, i: nat, a0: u64, b0: u64) returns (a: u64, b: u64)
    requires LegalBlockLen(bl) && i + bl <= |target| && Rolling(target, bl, i, a0, b0)
    ensures Rolling(target, bl, i + 1, a, b)
  {
    a, b := a0, b0;
    if i + bl < |target| {
      assert target[i..i + bl][1..] + [target[i + bl]] == target[i + 1..i + 1 + bl];
      a, b := Roll(a, b, target[i], target[i + bl], bl as u64, target[i..i + bl]);
    }
  }

  /** The two-level lookup, bucket then strong hash, is the linear scan. */
  method Lookup(h: StrongHash, target: seq<byte>, sigs: seq<BlockSig>, bl: nat, byRoll: RollIndex, i: nat, a: u64, b: u64)
    returns (hit: Option<nat>)
    requires LegalBlockLen(bl) && i + bl <= |target|
    requires Indexes(byRoll, sigs) && Rolling(target, bl, i, a, b)
    ensures hit == MatchAt(DigestOf(h), target, sigs, bl, i)
  {
    var w := target[i..i + bl];
    DigestIs(h, w);
    assert DigestOf(h)(w) == BlockSig(a, b, h(w));
    assert Bucket(byRoll, (a, b)) == Candidates(sigs, (a, b));
    assert sigs[..|sigs|] == sigs;
    BucketFinds(sigs, |sigs|, (a, b), h(w));
    hit := if (a, b) in byRoll then FindStrong(byRoll[(a, b)], sigs, h(w)) else None;
  }

  /** The incremental encoder is byte for byte the naive one; the rolling sums
    * are the sums of the current window throughout. */
  method Delta(h: StrongHash, target: seq<byte>, sigs: seq<BlockSig>, bl: nat) returns (out: seq<byte>)
    requires LegalBlockLen(bl) && |sigs| <= U32_LIMIT
    ensures out == DeltaOf(DigestOf(h), target, sigs, bl)
    ensures |target| < U32_LIMIT ==>
              Decode(out).Some? && Greedy(DigestOf(h), target, sigs, bl, 0, Decode(out).value)
  {
    hide NaiveOps, Encode, FirstMatch, Greedy, Decode, Indexes;
    if |target| < U32_LIMIT {
      DeltaIsGreedy(DigestOf(h), target, sigs, bl);
    }
    ghost var f := DigestOf(h);
    ghost var whole := DeltaOf(f, target, sigs, bl);
    var byRoll := BuildIndex(sigs);
    out := [];
    var lit, i := 0, 0;
    if |target| >= bl {
      var a, b := Rollsum(target[..bl]);
      assert target[0..bl] == target[..bl];
      while i + bl <= |target|
        invariant Encoded(f, target, sigs, bl, whole, out, i, lit)
        invariant Rolling(target, bl, i, a, b)
        decreases |target| - i
      {
        var hit := Lookup(h, target, sigs, bl, byRoll, i, a, b);
        if hit.Some? {
          EncodedCopy(f, target, sigs, bl, whole, out, i, lit, hit.value);
          out := EmitLiteral(out, target[lit..i]);
          out := EmitCopy(out, hit.value);
          i := i + bl;
          lit := i;
          a, b := RestartSums(target, bl, i, a, b);
        } else {
          EncodedSkip(f, target, sigs, bl, whole, out, i, lit);
          a, b := RollOn(target, bl, i, a, b);
          i := i + 1;
        }
      }
    }
    EncodedEnd(f, target, sigs, bl, whole, out, i, lit);
    out := EmitLiteral(out, target[lit..]);
  }

  // ----- what the greedy encoder guarantees -----

  ghost predicate NoMatchIn(f: Digest, target: seq<byte>, sigs: seq<BlockSig>, bl: nat, from: nat, to: nat)
    requires LegalBlockLen(bl)
  {
    forall j: nat | from <= j < to && j + bl <= |target| :: Unmatched(f, target, sigs, bl, j)
  }

  /** No block has the record of the window at `pos`. */
  predicate Unmatched(f: Digest, target: seq<byte>, sigs: seq<BlockSig>, bl: nat, pos: nat)
    requires pos + bl <= |target|
  {
    f(target[pos..pos + bl]) !in sigs
  }

  /** Block `ix` is the first with the record of the window at `pos`. */
  predicate FirstWith(f: Digest, target: seq<byte>, sigs: seq<BlockSig>, bl: nat, pos: nat, ix: nat)
    requires pos + bl <= |target|
  {
    ix < |sigs| && sigs[ix] == f(target[pos..pos + bl]) && sigs[ix] !in sigs[..ix]
  }

  lemma MatchAtIs(f: Digest, target: seq<byte>, sigs: seq<BlockSig>, bl: nat, i: nat)
    requires LegalBlockLen(bl) && i + bl <= |target|
    ensures MatchAt(f, target, sigs, bl, i) == None <==> Unmatched(f, target, sigs, bl, i)
    ensures forall ix: nat :: MatchAt(f, target, sigs, bl, i) == Some(ix) <==> FirstWith(f, target, sigs, bl, i, ix)
  {
    hide FirstMatch;
    var key := f(target[i..i + bl]);
    FirstMatchIsLowest(sigs, key);
    forall ix: nat | FirstWith(f, target, sigs, bl, i, ix) ensures FirstMatch(sigs, key) == Some(ix) {
      FirstIsOnly(sigs, key, ix);
    }
  }

  lemma {:induction false} FirstIsOnly(sigs: seq<BlockSig>, key: BlockSig, ix: nat)
    requires ix < |sigs| && sigs[ix] == key && key !in sigs[..ix]
    ensures FirstMatch(sigs, key) == Some(ix)
  {
    var last := |sigs| - 1;
    if ix < last {
      assert sigs[..last][..ix] == sigs[..ix];
      FirstIsOnly(sigs[..last], key, ix);
    } else {
      FirstMatchIsLowest(sigs[..last], key);
    }
  }

  lemma MatchedThere(f: Digest, target: seq<byte>, sigs: seq<BlockSig>, bl: nat, pos: nat, ix: nat)
    requires LegalBlockLen(bl) && pos + bl <= |target| && FirstWith(f, target, sigs, bl, pos, ix)
    ensures !Unmatched(f, target, sigs, bl, pos) && MatchAt(f, target, sigs, bl, pos) == Some(ix)
  {
    hide MatchAt;
    MatchAtIs(f, target, sigs, bl, pos);
  }

  /** `ops` cover `target[pos..]` in order with no gap or overlap. A copy names the
    * first block with the record of the window it stands for, a literal holds the
    * bytes themselves, no block has the record of any full window that starts inside
    * a literal, and literal runs are non-empty and never adjacent. */
  ghost predicate Greedy(f: Digest, target: seq<byte>, sigs: seq<BlockSig>, bl: nat, pos: nat, ops: seq<Op>)
    requires LegalBlockLen(bl)
    decreases |ops|
  {
    if ops == [] then pos == |target|
    else
      match ops[0]
      case Copy(ix) =>
        && pos + bl <= |target|
        && FirstWith(f, target, sigs, bl, pos, ix)
        && Greedy(f, target, sigs, bl, pos + bl, ops[1..])
      case Literal(bytes) =>
        var end := pos + |bytes|;
        && pos < end <= |target|
        && bytes == target[pos..end]
        && NoMatchIn(f, target, sigs, bl, pos, end)
        && (|ops| > 1 ==> ops[1].Copy?)
        && Greedy(f, target, sigs, bl, end, ops[1..])
  }

  lemma GreedyPrefix(f: Digest, target: seq<byte>, sigs: seq<BlockSig>, bl: nat, i: nat, lit: nat, rest: seq<Op>)
    requires LegalBlockLen(bl) && lit <= i <= |target|
    requires NoMatchIn(f, target, sigs, bl, lit, i)
    requires Greedy(f, target, sigs, bl, i, rest)
    requires rest != [] ==> rest[0].Copy?
    ensures Greedy(f, target, sigs, bl, lit, LiteralOps(target[lit..i]) + rest)
  {
    var ops := LiteralOps(target[lit..i]) + rest;
    if lit == i {
      assert ops == rest;
    } else {
      assert ops[0] == Literal(target[lit..i]) && ops[1..] == rest;
    }
  }

  lemma {:induction false} NaiveIsGreedy(f: Digest, target: seq<byte>, sigs: seq<BlockSig>, bl: nat, i: nat, lit: nat)
    requires LegalBlockLen(bl) && lit <= i <= |target|
    requires NoMatchIn(f, target, sigs, bl, lit, i)
    ensures Greedy(f, target, sigs, bl, lit, NaiveOps(f, target, sigs, bl, i, lit))
    decreases |target| - i
  {
    hide FirstMatch, MatchAt;
    if i + bl <= |target| {
      MatchAtIs(f, target, sigs, bl, i);
    }
    if i + bl > |target| {
      GreedyPrefix(f, target, sigs, bl, |target|, lit, []);
      assert target[lit..|target|] == target[lit..];
      assert LiteralOps(target[lit..]) + [] == LiteralOps(target[lit..]);
    } else if MatchAt(f, target, sigs, bl, i).Some? {
      var tail := NaiveOps(f, target, sigs, bl, i + bl, i + bl);
      var rest := [Copy(MatchAt(f, target, sigs, bl, i).value)] + tail;
      NaiveIsGreedy(f, target, sigs, bl, i + bl, i + bl);
      assert rest[1..] == tail;
      GreedyPrefix(f, target, sigs, bl, i, lit, rest);
      assert LiteralOps(target[lit..i]) + rest == NaiveOps(f, target, sigs, bl, i, lit);
    } else {
      assert NaiveOps(f, target, sigs, bl, i, lit) == NaiveOps(f, target, sigs, bl, i + 1, lit);
      NaiveIsGreedy(f, target, sigs, bl, i + 1, lit);
    }
  }

  /** The literal run that opens a greedy encoding ends where the scan from `i`
    * hits, or at the end of the file. */
  lemma GreedyRun(f: Digest, target: seq<byte>, sigs: seq<BlockSig>, bl: nat,
                  i: nat, lit: nat, ops: seq<Op>) returns (rest: seq<Op>)
    requires LegalBlockLen(bl) && lit <= i <= |target|
    requires NoMatchIn(f, target, sigs, bl, lit, i)
    requires Greedy(f, target, sigs, bl, lit, ops)
    requires i + bl <= |target| ==> MatchAt(f, target, sigs, bl, i).Some?
    ensures i + bl > |target| ==> rest == [] && ops == LiteralOps(target[lit..])
    ensures i + bl <= |target| ==>
              && ops == LiteralOps(target[lit..i]) + [Copy(MatchAt(f, target, sigs, bl, i).value)] + rest
              && Greedy(f, target, sigs, bl, i + bl, rest)
  {
    hide MatchAt;
    if i + bl <= |target| {
      MatchAtIs(f, target, sigs, bl, i);
    }
    if ops == [] {
      rest := [];
    } else if ops[0].Copy? {
      MatchedThere(f, target, sigs, bl, lit, ops[0].ix);
      assert lit == i;
      rest := ops[1..];
      assert ops == [ops[0]] + rest;
    } else {
      var end := lit + |ops[0].bytes|;
      if |ops| == 1 {
        assert ops[1..] == [] && end == |target|;
        assert target[lit..end] == target[lit..];
        rest := [];
      } else {
        var tail := ops[1..];
        MatchedThere(f, target, sigs, bl, end, tail[0].ix);
        assert tail[0] == ops[1] && end == i;
        rest := tail[1..];
        assert ops == [ops[0]] + [tail[0]] + rest;
      }
    }
  }

  lemma {:induction false} GreedyIsNaive(f: Digest, target: seq<byte>, sigs: seq<BlockSig>, bl: nat,
                                         i: nat, lit: nat, ops: seq<Op>)
    requires LegalBlockLen(bl) && lit <= i <= |target|
    requires NoMatchIn(f, target, sigs, bl, lit, i)
    requires Greedy(f, target, sigs, bl, lit, ops)
    ensures ops == NaiveOps(f, target, sigs, bl, i, lit)
    decreases |target| - i
  {
    if i + bl <= |target| {
      MatchAtIs(f, target, sigs, bl, i);
    }
    if i + bl <= |target| && MatchAt(f, target, sigs, bl, i).None? {
      GreedyIsNaive(f, target, sigs, bl, i + 1, lit, ops);
    } else {
      var rest := GreedyRun(f, target, sigs, bl, i, lit, ops);
      if i + bl <= |target| {
        GreedyIsNaive(f, target, sigs, bl, i + bl, i + bl, rest);
      }
    }
  }

  /** Greedy completeness: `delta` emits a greedy encoding, and the only one. */
  lemma GreedyCompleteness(f: Digest, target: seq<byte>, sigs: seq<BlockSig>, bl: nat, ops: seq<Op>)
    requires LegalBlockLen(bl)
    ensures Greedy(f, target, sigs, bl, 0, ops) <==> ops == NaiveOps(f, target, sigs, bl, 0, 0)
  {
    NaiveIsGreedy(f, target, sigs, bl, 0, 0);
    if Greedy(f, target, sigs, bl, 0, ops) {
      GreedyIsNaive(f, target, sigs, bl, 0, 0, ops);
    }
  }

  /** The bytes of a delta are the greedy encoding. */
  lemma DeltaIsGreedy(f: Digest, target: seq<byte>, sigs: seq<BlockSig>, bl: nat)
    requires LegalBlockLen(bl) && |target| < U32_LIMIT && |sigs| <= U32_LIMIT
    ensures var d := Decode(DeltaOf(f, target, sigs, bl)); d.Some? && Greedy(f, target, sigs, bl, 0, d.value)
  {
    var ops := NaiveOps(f, target, sigs, bl, 0, 0);
    NaiveIsGreedy(f, target, sigs, bl, 0, 0);
    GreedyFits32(f, target, sigs, bl, 0, ops);
    DecodeEncode(ops);
  }

  // ----- round trip -----

  /** No block of `base` shares checksum and strong hash with a different window of `target`. */
  ghost predicate WindowsFaithful(f: Digest, base: seq<byte>, target: seq<byte>, bl: nat)
    requires LegalBlockLen(bl)
  {
    forall k: nat, j: nat {:trigger Block(base, bl, k), target[j..j + bl]} |
      k * bl < |base| && j + bl <= |target| ::
      f(Block(base, bl, k)) == f(target[j..j + bl]) ==> Block(base, bl, k) == target[j..j + bl]
  }

  /** Every block that `ops` copy equals the window it stands for. */
  ghost predicate CopiesFaithful(base: seq<byte>, target: seq<byte>, bl: nat, pos: nat, ops: seq<Op>)
    requires LegalBlockLen(bl)
    decreases |ops|
  {
    if ops == [] then true
    else
      match ops[0]
      case Copy(ix) =>
        && ix * bl < |base| && pos + bl <= |target|
        && Block(base, bl, ix) == target[pos..pos + bl]
        && CopiesFaithful(base, target, bl, pos + bl, ops[1..])
      case Literal(bytes) => CopiesFaithful(base, target, bl, pos + |bytes|, ops[1..])
  }

  lemma FaithfulCopy(f: Digest, base: seq<byte>, target: seq<byte>, bl: nat, pos: nat, ix: nat)
    requires LegalBlockLen(bl) && WindowsFaithful(f, base, target, bl) && pos + bl <= |target|
    requires FirstWith(f, target, Signature(f, base, bl), bl, pos, ix)
    ensures ix * bl < |base| && Block(base, bl, ix) == target[pos..pos + bl]
  {
    SignatureAt(f, base, bl, ix);
  }

  lemma {:induction false} FaithfulCopies(f: Digest, base: seq<byte>, target: seq<byte>, sigs: seq<BlockSig>, bl: nat,
                                          pos: nat, ops: seq<Op>)
    requires LegalBlockLen(bl) && WindowsFaithful(f, base, target, bl)
    requires sigs == Signature(f, base, bl) && Greedy(f, target, sigs, bl, pos, ops)
    ensures CopiesFaithful(base, target, bl, pos, ops)
    decreases |ops|
  {
    hide WindowsFaithful, FirstWith, NoMatchIn, Signature, Block;
    if ops != [] {
      match ops[0]
      case Copy(ix) =>
        FaithfulCopy(f, base, target, bl, pos, ix);
        FaithfulCopies(f, base, target, sigs, bl, pos + bl, ops[1..]);
      case Literal(bytes) =>
        FaithfulCopies(f, base, target, sigs, bl, pos + |bytes|, ops[1..]);
    }
  }

  predicate InsideBase(base: seq<byte>, bl: nat, ix: nat)
  {
    ix * bl < |base|
  }

  ghost predicate AllInside(base: seq<byte>, bl: nat, n: nat)
  {
    forall ix: nat | ix < n :: InsideBase(base, bl, ix)
  }

  lemma SplitExact(x: seq<byte>, y: seq<byte>, t: seq<byte>, n: nat)
    requires |x| <= n <= |t| && |y| <= |t| - n
    ensures x + y == t <==> x == t[..n] && y == t[n..]
  {
    if x + y == t {
      assert |x| == n;
      assert x == (x + y)[..n] && y == (x + y)[n..];
    }
    assert t == t[..n] + t[n..];
  }

  /** One op with output `first` stands for the next `n` bytes of the target. */
  lemma OutputStep(base: seq<byte>, target: seq<byte>, bl: nat, pos: nat, n: nat, ops: seq<Op>, first: seq<byte>)
    requires LegalBlockLen(bl) && ops != [] && pos + n <= |target|
    requires OpOutput(base, bl, ops[0]) == Some(first) && |first| <= n
    requires Output(base, bl, ops[1..]).Some? && |Output(base, bl, ops[1..]).value| <= |target| - pos - n
    ensures Output(base, bl, ops).Some? && |Output(base, bl, ops).value| <= |target| - pos
    ensures Output(base, bl, ops).value == target[pos..] <==>
            first == target[pos..pos + n] && Output(base, bl, ops[1..]).value == target[pos + n..]
  {
    var t := target[pos..];
    assert t[..n] == target[pos..pos + n] && t[n..] == target[pos + n..];
    SplitExact(first, Output(base, bl, ops[1..]).value, t, n);
  }

  /** The ops rebuild the target exactly when their copies are faithful: a copied
    * block is never longer than its window, so an error cannot cancel out. */
  lemma {:induction false} OutputExact(f: Digest, base: seq<byte>, target: seq<byte>, sigs: seq<BlockSig>, bl: nat,
                                       pos: nat, ops: seq<Op>)
    requires LegalBlockLen(bl) && AllInside(base, bl, |sigs|)
    requires Greedy(f, target, sigs, bl, pos, ops)
    ensures pos <= |target|
    ensures Output(base, bl, ops).Some? && |Output(base, bl, ops).value| <= |target| - pos
    ensures Output(base, bl, ops).value == target[pos..] <==> CopiesFaithful(base, target, bl, pos, ops)
    decreases |ops|
  {
    if ops != [] {
      var n, first := 0, [];
      match ops[0] {
        case Copy(ix) =>
          assert InsideBase(base, bl, ix);
          n, first := bl, Block(base, bl, ix);
        case Literal(bytes) =>
          n, first := |bytes|, bytes;
      }
      OutputExact(f, base, target, sigs, bl, pos + n, ops[1..]);
      OutputStep(base, target, bl, pos, n, ops, first);
    }
  }

  lemma {:induction false} GreedyFits32(f: Digest, target: seq<byte>, sigs: seq<BlockSig>, bl: nat, pos: nat, ops: seq<Op>)
    requires LegalBlockLen(bl) && |target| < U32_LIMIT && |sigs| <= U32_LIMIT
    requires Greedy(f, target, sigs, bl, pos, ops)
    ensures forall op <- ops :: Fits32(op)
    decreases |ops|
  {
    if ops != [] {
      var next := match ops[0] case Copy(_) => pos + bl case Literal(bytes) => pos + |bytes|;
      GreedyFits32(f, target, sigs, bl, next, ops[1..]);
      assert forall op <- ops :: op == ops[0] || op in ops[1..];
    }
  }

  /** Exactly when a delta made against the signature of `base` rebuilds `target`. */
  lemma DeltaRoundTripExact(f: Digest, base: seq<byte>, target: seq<byte>, bl: nat)
    requires LegalBlockLen(bl) && |target| < U32_LIMIT && BlockCount(|base|, bl) <= U32_LIMIT
    ensures var sigs := Signature(f, base, bl);
            Patched(base, DeltaOf(f, target, sigs, bl), bl, |target|) == Some(target) <==>
            CopiesFaithful(base, target, bl, 0, NaiveOps(f, target, sigs, bl, 0, 0))
  {
    var sigs := Signature(f, base, bl);
    var ops := NaiveOps(f, target, sigs, bl, 0, 0);
    SignatureLength(f, base, bl);
    NaiveIsGreedy(f, target, sigs, bl, 0, 0);
    GreedyFits32(f, target, sigs, bl, 0, ops);
    DecodeEncode(ops);
    forall ix: nat | ix < |sigs| ensures InsideBase(base, bl, ix) {
      SignatureAt(f, base, bl, ix);
    }
    OutputExact(f, base, target, sigs, bl, 0, ops);
    assert target[0..] == target;
  }

  /** The delta round trip: collision-freedom on the blocks of `base` and the
    * windows of `target` is all it takes, short last block included. */
  lemma DeltaRoundTrip(f: Digest, base: seq<byte>, target: seq<byte>, bl: nat)
    requires LegalBlockLen(bl) && |target| < U32_LIMIT && BlockCount(|base|, bl) <= U32_LIMIT
    requires WindowsFaithful(f, base, target, bl)
    ensures Patched(base, DeltaOf(f, target, Signature(f, base, bl), bl), bl, |target|) == Some(target)
  {
    var sigs := Signature(f, base, bl);
    NaiveIsGreedy(f, target, sigs, bl, 0, 0);
    FaithfulCopies(f, base, target, sigs, bl, 0, NaiveOps(f, target, sigs, bl, 0, 0));
    DeltaRoundTripExact(f, base, target, bl);
  }

  /** A target of one full window comes back if and only if no block has its record, or
    * the first block that has it is the target. */
  lemma OneWindow(f: Digest, base: seq<byte>, target: seq<byte>, bl: nat)
    requires LegalBlockLen(bl) && |target| == bl && BlockCount(|base|, bl) <= U32_LIMIT
    ensures var sigs := Signature(f, base, bl);
            var m := FirstMatch(sigs, f(target));
            && (m.Some? ==> m.value * bl < |base|)
            && (Patched(base, DeltaOf(f, target, sigs, bl), bl, bl) == Some(target) <==>
                m == None || Block(base, bl, m.value) == target)
  {
    hide Patched, DeltaOf, Signature, Block, FirstMatch;
    var sigs := Signature(f, base, bl);
    assert target[0..0 + bl] == target;
    assert target[0..0] == [] && target[bl..] == [];
    DeltaRoundTripExact(f, base, target, bl);
    var m := FirstMatch(sigs, f(target));
    match m
    case Some(ix) =>
      FirstMatchIsLowest(sigs, f(target));
      SignatureAt(f, base, bl, ix);
      assert NaiveOps(f, target, sigs, bl, 0, 0) == [Copy(ix)];
    case None =>
      assert NaiveOps(f, target, sigs, bl, 0, 0) == NaiveOps(f, target, sigs, bl, 1, 0) == [Literal(target)];
  }

  /** Any collision breaks the round trip: a full window that is no block of the base
    * but has the record of one does not come back. */
  lemma CollisionBreaksRoundTrip(f: Digest, base: seq<byte>, target: seq<byte>, bl: nat, k: nat)
    requires LegalBlockLen(bl) && |target| == bl && BlockCount(|base|, bl) <= U32_LIMIT
    requires k * bl < |base| && f(Block(base, bl, k)) == f(target)
    requires forall i: nat {:trigger Block(base, bl, i)} | i * bl < |base| :: Block(base, bl, i) != target
    ensures Patched(base, DeltaOf(f, target, Signature(f, base, bl), bl), bl, bl) != Some(target)
  {
    hide Patched, DeltaOf, Signature, Block, FirstMatch;
    SignatureAt(f, base, bl, k);
    KnownKeyMatches(Signature(f, base, bl), k);
    OneWindow(f, base, target, bl);
  }

  /** Such windows exist: these have equal rolling sums, and only the hash is left to
    * tell them apart. */
  lemma CollisionExample(h: StrongHash)
    requires h([0, 3, 0]) == h([1, 1, 1])
    ensures Patched([0, 3, 0], DeltaOf(DigestOf(h), [1, 1, 1], Signature(DigestOf(h), [0, 3, 0], 3), 3), 3, 3) != Some([1, 1, 1])
  {
    hide Patched, DeltaOf, Signature, SumA, SumB;
    var f, base: seq<byte>, target: seq<byte> := DigestOf(h), [0, 3, 0], [1, 1, 1];
    SameSums();
    DigestIs(h, base);
    DigestIs(h, target);
    BlockCountOfOne(3);
    assert Block(base, 3, 0) == base && base[0] != target[0];
    CollisionBreaksRoundTrip(f, base, target, 3, 0);
  }

  lemma SameSums()
    ensures SumA([0, 3, 0]) == SumA([1, 1, 1]) == 3
    ensures SumB([0, 3, 0]) == SumB([1, 1, 1]) == 6
  {
    var x: seq<byte>, y: seq<byte> := [0, 3, 0], [1, 1, 1];
    assert x[1..] == [3, 0] && x[1..][1..] == [0] && y[1..] == [1, 1] && y[1..][1..] == [1];
    assert SumA([0]) == 0 && SumA([3, 0]) == 3 && SumA([1]) == 1 && SumA([1, 1]) == 2;
    assert SumB([0]) == 0 && SumB([3, 0]) == 6 && SumB([1]) == 1 && SumB([1, 1]) == 3;
  }

  lemma BlockCountOfOne(bl: nat)
    requires bl > 0
    ensures BlockCount(bl, bl) == 1
  {
    DivUnique(bl + bl - 1, bl, 1, bl - 1);
  }

  // ----- size -----

  lemma EncodedLiteralSize(bytes: seq<byte>)
    ensures |Encode(LiteralOps(bytes))| == if bytes == [] then 0 else 5 + |bytes|
  {
    assert Encode([Literal(bytes)]) == OpBytes(Literal(bytes)) + Encode([]);
  }

  lemma NaiveSizeAtMatch(f: Digest, target: seq<byte>, sigs: seq<BlockSig>, bl: nat, i: nat, lit: nat)
    requires LegalBlockLen(bl) && lit <= i && i + bl <= |target| && MatchAt(f, target, sigs, bl, i).Some?
    ensures |Encode(NaiveOps(f, target, sigs, bl, i, lit))| ==
            (if lit == i then 0 else 5 + i - lit) + 5 + |Encode(NaiveOps(f, target, sigs, bl, i + bl, i + bl))|
  {
    EncodeRunAndCopy(target[lit..i], Copy(MatchAt(f, target, sigs, bl, i).value),
                     NaiveOps(f, target, sigs, bl, i + bl, i + bl));
    EncodedLiteralSize(target[lit..i]);
  }

  lemma {:induction false} GreedySize(f: Digest, target: seq<byte>, sigs: seq<BlockSig>, bl: nat, pos: nat, ops: seq<Op>)
    requires LegalBlockLen(bl) && bl >= 10 && Greedy(f, target, sigs, bl, pos, ops)
    ensures |Encode(ops)| + pos <= |target| + if ops != [] && ops[0].Literal? then 5 else 0
    decreases |ops|
  {
    if ops != [] {
      var next := match ops[0] case Copy(_) => pos + bl case Literal(bytes) => pos + |bytes|;
      GreedySize(f, target, sigs, bl, next, ops[1..]);
    }
  }

  /** A delta is never more than five bytes longer than the file. */
  lemma DeltaSize(f: Digest, target: seq<byte>, sigs: seq<BlockSig>, bl: nat)
    requires LegalBlockLen(bl) && bl >= 10
    ensures |DeltaOf(f, target, sigs, bl)| <= |target| + 5
  {
    NaiveIsGreedy(f, target, sigs, bl, 0, 0);
    GreedySize(f, target, sigs, bl, 0, NaiveOps(f, target, sigs, bl, 0, 0));
  }

  /** Five bytes a full block, five more than its length for a tail. */
  function UnchangedCost(len: nat, bl: nat): nat
    requires bl > 0
  {
    5 * (len / bl) + if len % bl == 0 then 0 else 5 + len % bl
  }

  lemma UnchangedCostStep(len: nat, bl: nat)
    requires bl > 0
    ensures len < bl ==> UnchangedCost(len, bl) == if len == 0 then 0 else 5 + len
    ensures len >= bl ==> UnchangedCost(len, bl) == 5 + UnchangedCost(len - bl, bl)
  {
    if len < bl {
      DivUnique(len, bl, 0, len);
    } else {
      DivAdd(len - bl, bl);
      ModAdd(len - bl, bl);
    }
  }

  lemma ModAdd(m: nat, d: nat)
    requires d > 0
    ensures (m + d) % d == m % d
  {
    DivAdd(m, d);
    assert (m / d + 1) * d == m / d * d + d;
  }

  lemma OwnBlockMatches(f: Digest, data: seq<byte>, bl: nat, k: nat, i: nat)
    requires LegalBlockLen(bl) && i == k * bl && i + bl <= |data|
    ensures MatchAt(f, data, Signature(f, data, bl), bl, i).Some?
  {
    SignatureAt(f, data, bl, k);
    assert Block(data, bl, k) == data[i..i + bl];
    KnownKeyMatches(Signature(f, data, bl), k);
  }

  lemma {:induction false} UnchangedSize(f: Digest, data: seq<byte>, bl: nat, k: nat, i: nat)
    requires LegalBlockLen(bl) && i == k * bl && i <= |data|
    ensures |Encode(NaiveOps(f, data, Signature(f, data, bl), bl, i, i))| == UnchangedCost(|data| - i, bl)
    decreases |data| - i
  {
    hide UnchangedCost, Signature, FirstMatch;
    UnchangedCostStep(|data| - i, bl);
    if i + bl > |data| {
      EncodedLiteralSize(data[i..]);
    } else {
      OwnBlockMatches(f, data, bl, k, i);
      NaiveSizeAtMatch(f, data, Signature(f, data, bl), bl, i, i);
      MulSucc(k, bl);
      UnchangedSize(f, data, bl, k + 1, i + bl);
    }
  }

  /** The delta of an unchanged file costs five bytes a full block and five more
    * than its length for the tail, whatever the hash does. */
  lemma UnchangedDeltaSize(f: Digest, data: seq<byte>, bl: nat)
    requires LegalBlockLen(bl)
    ensures |DeltaOf(f, data, Signature(f, data, bl), bl)| == UnchangedCost(|data|, bl)
  {
    assert 0 * bl == 0;
    UnchangedSize(f, data, bl, 0, 0);
  }
}
