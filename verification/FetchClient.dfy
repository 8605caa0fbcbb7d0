/** The loops of `Agent::fetch` in src/agent.rs, over the destination directory that
  * they fill in place: they follow the client's peer. */
module FetchClient {
  import opened Paths
  import opened Signatures
  import opened FileTree
  import opened Session
  import opened AgentPeer
  import opened AgentFs
  import opened FetchProtocol
  import DeltaOps

  /** How a fetch ends: with the names written, with an error, or with the channel closed. */
  datatype Ending = Written(names: seq<string>) | Errored | CutOff

  ghost predicate Follows(j: FetchJob, local: Tree, n: nat, taken: seq<Msg>, given: seq<Msg>, s: FetchState)
  {
    Traces(Fetcher(j), Opening(local), n, taken, given, s)
  }

  lemma Takes(j: FetchJob, local: Tree, n: nat, inbox: seq<Msg>, k: nat, given: seq<Msg>, s: FetchState)
    requires k < |inbox| && Follows(j, local, n, inbox[..k], given, s) && FetchAct(j, s).Recv?
    ensures Follows(j, local, n + 1, inbox[..k + 1], given, FetchGot(j, s, inbox[k]))
  {
    TracesRecv(Fetcher(j), Opening(local), n, inbox[..k], given, s, inbox[k]);
    assert inbox[..k] + [inbox[k]] == inbox[..k + 1];
  }

  lemma Gives(j: FetchJob, local: Tree, n: nat, taken: seq<Msg>, given: seq<Msg>, s: FetchState)
    requires Follows(j, local, n, taken, given, s) && FetchAct(j, s).Send?
    ensures Follows(j, local, n + 1, taken, given + [FetchAct(j, s).msg], FetchSent(j, s))
  {
    TracesSend(Fetcher(j), Opening(local), n, taken, given, s);
  }

  ghost predicate EndsIn(r: Ending, j: FetchJob, local: Tree, inbox: seq<Msg>, upTo: nat, s: FetchState)
  {
    match r
    case Written(names) => s == Over(local, names)
    case Errored => s == Broken(local)
    case CutOff => upTo == |inbox| && FetchAct(j, s).Recv? && s.local == local
  }

  /** The signature to send for one requested file. */
  method SignLocal(store: Store, h: StrongHash, rel: string) returns (m: BasisSig)
    ensures m == BasisFor(DigestOf(h), store.tree, rel)
  {
    var copy := Basis(store.tree, [Basename(rel)]);
    if copy == [] {
      return BasisSig(rel, BLOCK_LEN, []);
    }
    var bl := BlockLenFor(|copy|);
    var data := SigToBytes(Signature(DigestOf(h), copy, bl));
    return BasisSig(rel, bl, data);
  }

  /** One FETCHED frame: the next state of the peer, with the tree it leaves. */
  method TakeFile(store: Store, j: FetchJob, suffix: (Tree, Path) -> string, i: nat, written: seq<string>, a: Answer)
    returns (written1: seq<string>, ok: bool)
    requires i < |j.rels| && FreshNames(suffix)
    modifies store
    ensures TakeAnswer(j, old(store.tree), i, written, a) ==
            if ok then Await(j, store.tree, i + 1, written1) else Broken(store.tree)
  {
    hide DeltaOps.Patched, WriteFile, Basename;
    var rel := j.rels[i];
    written1, ok := written, false;
    if a.rel != rel {
      return;
    }
    if !a.there {
      return written, true;
    }
    var name := Basename(rel);
    if !Accepted(name) {
      return;
    }
    var content := a.data;
    if a.delta {
      var r := DeltaOps.Patch(Basis(store.tree, [name]), a.data, HdrBlockLen(a.blockLen), a.len);
      if r.Err? {
        return;
      }
      content := r.value;
    }
    var o := store.WriteFileAtomic([name], content, a.mtime, j.now, NameFor(suffix, store.tree, [name]));
    if o.Done? {
      written1, ok := written + [name], true;
    }
  }

  /** A run of the client that leaves the destination directory as `now`. */
  ghost predicate Ran(j: FetchJob, local: Tree, inbox: seq<Msg>, n: nat, upTo: nat, outbox: seq<Msg>,
                      r: Ending, now: Tree, s1: FetchState)
  {
    upTo <= |inbox| && Follows(j, local, n, inbox[..upTo], outbox, s1) && EndsIn(r, j, now, inbox, upTo, s1)
  }

  /** `start`, `fetch` and `quit`, given everything that comes from the agent: the frames
    * sent, the files written and the result are those of the client's peer. */
  method Fetch(store: Store, j: FetchJob, h: StrongHash, suffix: (Tree, Path) -> string, inbox: seq<Msg>)
    returns (upTo: nat, outbox: seq<Msg>, r: Ending, ghost n: nat, ghost s1: FetchState)
    requires j.f == DigestOf(h) && FreshNames(suffix)
    modifies store
    ensures Ran(j, old(store.tree), inbox, n, upTo, outbox, r, store.tree, s1)
  {
    ghost var t0 := store.tree;
    upTo, outbox, r, n, s1 := 0, [], CutOff, 0, Opening(store.tree);
    assert inbox[..0] == [];
    if |inbox| == 0 {
      return;
    }
    Takes(j, t0, n, inbox, 0, outbox, s1);
    upTo, n, s1 := 1, 1, FetchGot(j, s1, inbox[0]);
    if !inbox[0].Hello? {
      return upTo, outbox, Errored, n, s1;
    }
    outbox, n, s1 := Ask(store, j, h, inbox, outbox, n, s1);
    upTo, outbox, r, n, s1 := Receive(store, j, suffix, inbox, 1, outbox, n, t0);
  }

  /** FETCH_REQ and one FETCH_SIG for each path. */
  method Ask(store: Store, j: FetchJob, h: StrongHash, inbox: seq<Msg>, given: seq<Msg>, ghost n0: nat, ghost s0: FetchState)
    returns (outbox: seq<Msg>, ghost n: nat, ghost s1: FetchState)
    requires j.f == DigestOf(h) && |inbox| >= 1 && s0 == Asking(store.tree)
    requires Follows(j, store.tree, n0, inbox[..1], given, s0)
    ensures Follows(j, store.tree, n, inbox[..1], outbox, s1) && s1 == Await(j, store.tree, 0, [])
  {
    hide Follows, BasisFor;
    Gives(j, store.tree, n0, inbox[..1], given, s0);
    outbox, n, s1 := given + [FetchReq(j.rels)], n0 + 1, FetchSent(j, s0);
    for i := 0 to |j.rels|
      invariant s1 == BaseNext(j, store.tree, i) && Follows(j, store.tree, n, inbox[..1], outbox, s1)
    {
      var m := SignLocal(store, h, j.rels[i]);
      Gives(j, store.tree, n, inbox[..1], outbox, s1);
      outbox, n, s1 := outbox + [FetchSig(m)], n + 1, FetchSent(j, s1);
    }
  }

  /** One FETCHED for each path, DONE and QUIT. */
  method Receive(store: Store, j: FetchJob, suffix: (Tree, Path) -> string, inbox: seq<Msg>, from: nat,
                 given: seq<Msg>, ghost n0: nat, ghost t0: Tree)
    returns (upTo: nat, outbox: seq<Msg>, r: Ending, ghost n: nat, ghost s1: FetchState)
    requires from <= |inbox| && FreshNames(suffix)
    requires Follows(j, t0, n0, inbox[..from], given, Await(j, store.tree, 0, []))
    modifies store
    ensures upTo <= |inbox| && Follows(j, t0, n, inbox[..upTo], outbox, s1)
    ensures EndsIn(r, j, store.tree, inbox, upTo, s1)
  {
    hide Follows, TakeAnswer;
    var written: seq<string> := [];
    upTo, outbox, n, s1 := from, given, n0, Await(j, store.tree, 0, []);
    for i := 0 to |j.rels|
      invariant from <= upTo <= |inbox| && outbox == given
      invariant s1 == Await(j, store.tree, i, written) && Follows(j, t0, n, inbox[..upTo], outbox, s1)
    {
      if upTo == |inbox| {
        return upTo, outbox, CutOff, n, s1;
      }
      var m := inbox[upTo];
      Takes(j, t0, n, inbox, upTo, outbox, s1);
      upTo, n, s1 := upTo + 1, n + 1, FetchGot(j, s1, m);
      if !m.Fetched? {
        return upTo, outbox, Errored, n, s1;
      }
      var ok;
      written, ok := TakeFile(store, j, suffix, i, written, m.answer);
      if !ok {
        return upTo, outbox, Errored, n, s1;
      }
    }
    if upTo == |inbox| {
      return upTo, outbox, CutOff, n, s1;
    }
    Takes(j, t0, n, inbox, upTo, outbox, s1);
    n, s1 := n + 1, FetchGot(j, s1, inbox[upTo]);
    upTo := upTo + 1;
    if !inbox[upTo - 1].DoneFrame? {
      return upTo, outbox, Errored, n, s1;
    }
    Gives(j, t0, n, inbox[..upTo], outbox, s1);
    return upTo, outbox + [Quit], Written(written), n + 1, FetchSent(j, s1);
  }
}
