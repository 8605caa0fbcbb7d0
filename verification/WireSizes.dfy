/** Every frame with data that honest peers of src/agent.rs exchange fits. */
module WireSizes {
  import opened Bytes
  import opened Paths
  import opened Signatures
  import opened FileTree
  import opened SyncPlan
  import opened Convergence
  import opened AgentPeer
  import RollingChecksum

  /** A length below the next square is few blocks. */
  lemma NearSquare(n: nat, bl: nat)
    requires 0 < bl <= RollingChecksum.MAX_BLOCK && n < (bl + 1) * (bl + 1)
    ensures n <= 0x80_0000 * bl
  {
    var square := bl * bl;
    assert (bl + 1) * (bl + 1) == square + 2 * bl + 1;
    RollingChecksum.MulMonotone(bl, bl, RollingChecksum.MAX_BLOCK);
  }

  /** The chosen block length keeps the number of blocks down. */
  lemma BlocksAreFew(n: nat)
    requires n < MAX_REMOTE_FILE
    ensures BlockCount(n, BlockLenFor(n)) <= 0x80_0000
  {
    hide BlockLenFor;
    var bl := BlockLenFor(n);
    if bl < RollingChecksum.MAX_BLOCK {
      NearSquare(n, bl);
    }
    CountBound(n, bl, 0x80_0000);
  }

  lemma SigBytesFit(f: Digest, x: seq<byte>)
    requires |x| < MAX_REMOTE_FILE
    ensures |SigBytes(Signature(f, x, BlockLenFor(|x|)))| <= MAX_DATA
  {
    BlocksAreFew(|x|);
    SignatureLength(f, x, BlockLenFor(|x|));
  }

  /** SIG frames. */
  lemma SigFits(f: Digest, t: Tree, p: Path)
    requires p in t && t[p].File? ==> |t[p].content| < MAX_REMOTE_FILE
    ensures |AgentSig(f, t, p).data| <= MAX_DATA
  {
    if p in t && t[p].File? && t[p].content != [] {
      SigBytesFit(f, t[p].content);
    }
  }

  /** PUT frames: a delta is only used when it is shorter than the file. */
  lemma PutFits(f: Digest, local: Tree, m: Meta, table: SigTable)
    requires m.path in local && local[m.path].File? ==> |local[m.path].content| <= MAX_DATA
    ensures PutFor(f, local, m, table).Some? ==> |PutFor(f, local, m, table).value.data| <= MAX_DATA
  {}

  /** FETCHED frames. */
  lemma AnswerFits(f: Digest, t: Tree, rel: string, table: BasisTable)
    requires LookUnder(t, rel).Found? ==> |LookUnder(t, rel).content| <= MAX_DATA
    ensures AnswerFor(f, t, rel, table).Some? ==> |AnswerFor(f, t, rel, table).value.data| <= MAX_DATA
  {
    hide LookUnder;
  }
}
