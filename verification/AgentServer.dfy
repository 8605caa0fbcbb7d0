/** The loops of `serve`, `serve_sync` and `serve_fetch` in src/agent.rs, over a file
  * tree that they change in place: each follows the agent's peer. */
module AgentServer {
  import opened Bytes
  import opened Paths
  import opened Signatures
  import opened FileTree
  import opened SyncPlan
  import opened Session
  import opened AgentPeer
  import opened AgentFs
  import opened Safety
  import DeltaEncoder
  import DeltaOps
  import Framing

  /** How a request ends: with DONE, with an error, or with the channel closed. */
  datatype End = Complete | Failure | HungUp

  ghost predicate FramesFit(inbox: seq<Msg>)
  {
    forall m <- inbox :: m.FetchSig? ==> |m.basis.data| <= Framing.MAX_FRAME
  }

  ghost predicate Follows(w: World, s: AgentState, n: nat, taken: seq<Msg>, given: seq<Msg>, s1: AgentState)
  {
    Traces(Agent(w), s, n, taken, given, s1)
  }

  lemma Gives(w: World, s: AgentState, n: nat, taken: seq<Msg>, given: seq<Msg>, s1: AgentState)
    requires Follows(w, s, n, taken, given, s1) && AgentAct(w, s1).Send?
    ensures Follows(w, s, n + 1, taken, given + [AgentAct(w, s1).msg], AgentSent(w, s1))
  {
    TracesSend(Agent(w), s, n, taken, given, s1);
  }

  lemma Takes(w: World, s: AgentState, n: nat, taken: seq<Msg>, given: seq<Msg>, s1: AgentState, m: Msg)
    requires Follows(w, s, n, taken, given, s1) && AgentAct(w, s1).Recv?
    ensures Follows(w, s, n + 1, taken + [m], given, AgentGot(w, s1, m))
  {
    TracesRecv(Agent(w), s, n, taken, given, s1, m);
  }

  lemma Starts(w: World, s: AgentState)
    ensures Follows(w, s, 0, [], [], s)
  {}

  lemma TakeNext(inbox: seq<Msg>, from: nat, k: nat)
    requires from <= k < |inbox|
    ensures inbox[from..k] + [inbox[k]] == inbox[from..k + 1]
  {}

  function SigFrames(f: Digest, t: Tree, ps: seq<Path>): seq<Msg>
  {
    seq(|ps|, i requires 0 <= i < |ps| => Sig(AgentSig(f, t, ps[i])))
  }

  /** One SIG frame per path brings the agent back to waiting. */
  lemma {:induction false} SigsGiven(w: World, s: AgentState, n: nat, taken: seq<Msg>, given: seq<Msg>,
                                     t: Tree, ps: seq<Path>, k: nat)
    requires k < |ps| && Follows(w, s, n, taken, given, Signing(t, ps[k..]))
    ensures Follows(w, s, n + |ps| - k, taken, given + SigFrames(w.f, t, ps)[k..], Serving(t))
    decreases |ps| - k
  {
    hide Follows, AgentSig;
    Gives(w, s, n, taken, given, Signing(t, ps[k..]));
    var frames := SigFrames(w.f, t, ps);
    assert ps[k..][0] == ps[k];
    if k + 1 == |ps| {
      assert frames[k..] == [frames[k]];
    } else {
      assert ps[k..][1..] == ps[k + 1..];
      SigsGiven(w, s, n + 1, taken, given + [frames[k]], t, ps, k + 1);
      assert given + [frames[k]] + frames[k + 1..] == given + frames[k..];
    }
  }

  /** A SIG_REQ frame and its replies. */
  lemma SigReqServed(w: World, s: AgentState, n: nat, taken: seq<Msg>, given: seq<Msg>, t: Tree, ps: seq<Path>)
    requires Follows(w, s, n, taken, given, Serving(t))
    ensures Follows(w, s, n + 1 + |ps|, taken + [SigReq(ps)], given + SigFrames(w.f, t, ps), Serving(t))
  {
    hide Follows, AgentSig;
    Takes(w, s, n, taken, given, Serving(t), SigReq(ps));
    if ps == [] {
      assert given + SigFrames(w.f, t, ps) == given;
    } else {
      assert ps[0..] == ps && SigFrames(w.f, t, ps)[0..] == SigFrames(w.f, t, ps);
      SigsGiven(w, s, n + 1, taken + [SigReq(ps)], given, t, ps, 0);
    }
  }

  /** Where the agent is when a request has ended. */
  ghost predicate EndsIn(w: World, t: Tree, end: End, s: AgentState)
  {
    && s.tree == t
    && match end
       case Complete => s == Idle(t)
       case Failure => AgentAct(w, s) == Send(ErrorFrame) && AgentSent(w, s) == Closed(t)
       case HungUp => AgentAct(w, s).Recv?
  }

  /** The tree passes through `mid` while the frame is handled. */
  ghost predicate FrameMoment(w: World, suffix: (Tree, Path) -> string, t: Tree, m: Msg, mid: Tree)
  {
    match m
    case Mkdir(ps) => MkdirMoment(t, ps, mid)
    case PutFrame(put) => PutMoment(t, put, w.now, NameFor(suffix, t, put.path), mid)
    case Delete(ps) => DeleteMoment(t, ps, mid)
    case _ => false
  }

  /** `mid` is a moment of some frame `inbox[k]`, handled where the frames before it lead. */
  ghost predicate Passed(w: World, suffix: (Tree, Path) -> string, s: AgentState, inbox: seq<Msg>, from: nat, upTo: nat, mid: Tree)
    requires from <= upTo <= |inbox|
  {
    exists k: nat, n: nat, given, t | from <= k < upTo ::
      Follows(w, s, n, inbox[from..k], given, Serving(t)) && FrameMoment(w, suffix, t, inbox[k], mid)
  }

  lemma PassedNow(w: World, suffix: (Tree, Path) -> string, s: AgentState, inbox: seq<Msg>, from: nat, k: nat, n: nat,
                  given: seq<Msg>, t: Tree, mid: Tree)
    requires from <= k < |inbox| && Follows(w, s, n, inbox[from..k], given, Serving(t))
    requires FrameMoment(w, suffix, t, inbox[k], mid)
    ensures Passed(w, suffix, s, inbox, from, k + 1, mid)
  {}

  lemma PassedStill(w: World, suffix: (Tree, Path) -> string, s: AgentState, inbox: seq<Msg>, from: nat, k: nat, k1: nat, mid: Tree)
    requires from <= k <= k1 <= |inbox| && Passed(w, suffix, s, inbox, from, k, mid)
    ensures Passed(w, suffix, s, inbox, from, k1, mid)
  {
    hide Follows, FrameMoment;
  }

  /** One frame of a sync: `None` if the sync goes on. */
  method ServeFrame(store: Store, w: World, h: StrongHash, suffix: (Tree, Path) -> string, m: Msg)
    returns (outbox: seq<Msg>, end: Option<End>)
    requires w.f == DigestOf(h) && FreshNames(suffix)
    modifies store
    ensures end.None? ==>
              if m.SigReq? then store.tree == old(store.tree) && outbox == SigFrames(w.f, store.tree, m.paths)
              else outbox == [] && AgentGot(w, Serving(old(store.tree)), m) == Serving(store.tree)
    ensures end == Some(Complete) ==> m.PlanDone? && outbox == [DoneFrame] && store.tree == old(store.tree)
    ensures end == Some(Failure) ==>
              !m.SigReq? && outbox == [] && AgentGot(w, Serving(old(store.tree)), m) == Failing(store.tree)
    ensures end != Some(HungUp)
    ensures store.Extends(old(store.trail))
    ensures forall mid <- store.Since(old(store.trail)) :: FrameMoment(w, suffix, old(store.tree), m, mid)
  {
    hide AgentSig, CreateAll, ApplyPut, DeleteAll, MkdirMoment, PutMoment, DeleteMoment, NameFor, FreshNames;
    outbox, end := [], None;
    match m
    case Mkdir(ps) =>
      var o := store.CreateDirs(ps);
      if !o.Done? { end := Some(Failure); }
    case SigReq(ps) =>
      var replies := store.Signatures(h, ps);
      outbox := seq(|replies|, i requires 0 <= i < |replies| => Sig(replies[i]));
      assert outbox == SigFrames(w.f, store.tree, ps);
    case PutFrame(put) =>
      if put.path != [] {
        NameIsFresh(suffix, store.tree, put.path);
      }
      var o := store.Apply(put, w.now, NameFor(suffix, store.tree, put.path));
      if !o.Done? { end := Some(Failure); }
    case Delete(ps) => store.DeletePaths(ps);
    case PlanDone => outbox, end := [DoneFrame], Some(Complete);
    case _ => end := Some(Failure);
  }

  /** `serve_sync`. */
  method ServeSync(store: Store, w: World, h: StrongHash, suffix: (Tree, Path) -> string,
                   ex: seq<Path>, inbox: seq<Msg>, from: nat)
    returns (upTo: nat, outbox: seq<Msg>, end: End, ghost n: nat, ghost s1: AgentState)
    requires w.f == DigestOf(h) && FreshNames(suffix) && from <= |inbox|
    modifies store
    ensures from <= upTo <= |inbox| && (end.HungUp? ==> upTo == |inbox|)
    ensures Follows(w, ToList(old(store.tree), ex), n, inbox[from..upTo], outbox, s1) && EndsIn(w, store.tree, end, s1)
    ensures store.Extends(old(store.trail))
    ensures forall mid <- store.Since(old(store.trail)) ::
              Passed(w, suffix, ToList(old(store.tree), ex), inbox, from, upTo, mid)
  {
    hide Follows, AgentSig, CreateAll, ApplyPut, DeleteAll, FreshNames, FrameMoment, Passed;
    ghost var s := ToList(store.tree, ex);
    outbox := [Listing(w.walk(store.tree, ex))];
    upTo, n, s1 := from, 1, Serving(store.tree);
    assert inbox[from..from] == [] && [] + outbox == outbox;
    Starts(w, s);
    Gives(w, s, 0, [], [], s);
    while upTo < |inbox|
      invariant from <= upTo <= |inbox| && s1 == Serving(store.tree)
      invariant Follows(w, s, n, inbox[from..upTo], outbox, s1)
      invariant store.Extends(old(store.trail))
      invariant forall mid <- store.Since(old(store.trail)) :: Passed(w, suffix, s, inbox, from, upTo, mid)
    {
      var m := inbox[upTo];
      ghost var t0, n0, given0, trail0 := store.tree, n, outbox, store.trail;
      TakeNext(inbox, from, upTo);
      if m.SigReq? {
        SigReqServed(w, s, n, inbox[from..upTo], outbox, store.tree, m.paths);
        n := n + 1 + |m.paths|;
      } else {
        Takes(w, s, n, inbox[from..upTo], outbox, s1, m);
        n, s1 := n + 1, AgentGot(w, s1, m);
      }
      ghost var given := outbox;
      var out, stop := ServeFrame(store, w, h, suffix, m);
      forall mid <- store.Since(old(store.trail)) ensures Passed(w, suffix, s, inbox, from, upTo + 1, mid) {
        if mid in store.Since(trail0) {
          PassedNow(w, suffix, s, inbox, from, upTo, n0, given0, t0, mid);
        } else {
          OldOrNew(old(store.trail), trail0, store.trail, mid);
          PassedStill(w, suffix, s, inbox, from, upTo, upTo + 1, mid);
        }
      }
      outbox, upTo := outbox + out, upTo + 1;
      assert given + [] == given;
      if stop.Some? {
        if stop.value.Complete? {
          Gives(w, s, n, inbox[from..upTo], given, s1);
          n, s1 := n + 1, Idle(store.tree);
        }
        return upTo, outbox, stop.value, n, s1;
      }
    }
    end := HungUp;
  }

  /** What is on the trail was there or has been added. */
  lemma OldOrNew(first: seq<Tree>, was: seq<Tree>, now: seq<Tree>, mid: Tree)
    requires |first| <= |was| <= |now| && now[..|was|] == was && mid in now[|first|..]
    ensures mid in was[|first|..] || mid in now[|was|..]
  {
    var i :| 0 <= i < |now| - |first| && now[|first|..][i] == mid;
    if |first| + i < |was| {
      assert was[|first|..][i] == mid;
    } else {
      assert now[|was|..][|first| + i - |was|] == mid;
    }
  }

  // ----- fetching -----

  ghost predicate BasisFits(table: BasisTable)
  {
    forall rel | rel in table :: |table[rel].1| <= DeltaOps.U32_LIMIT
  }

  /** One file of `serve_fetch`. */
  method AnswerFile(store: Store, h: StrongHash, rel: string, table: BasisTable) returns (r: Option<Answer>)
    requires BasisFits(table)
    ensures r == AnswerFor(DigestOf(h), store.tree, rel, table)
  {
    match LookUnder(store.tree, rel)
    case Refused => return None;
    case Missing => return Some(Answer(rel, false, false, 0, 0, 0, []));
    case Found(data, mtime) =>
      if rel in table {
        var (bl, sigs) := table[rel];
        if !LegalBlockLen(bl) {
          return None;
        }
        var d := DeltaEncoder.Delta(h, data, sigs, bl);
        if |d| < |data| {
          return Some(Answer(rel, true, true, bl, |data|, mtime, d));
        }
      }
      return Some(Answer(rel, true, false, 0, |data|, mtime, data));
  }

  /** A FETCH_SIG frame. */
  method KeepSig(table: BasisTable, m: BasisSig) returns (r: Option<BasisTable>)
    requires BasisFits(table) && |m.data| <= Framing.MAX_FRAME
    ensures r == KeepBasis(table, m) && (r.Some? ==> BasisFits(r.value))
  {
    if m.data == [] {
      return Some(table);
    }
    var sigs := SigFromBytes(m.data);
    if sigs.Err? {
      return None;
    }
    assert |SigBytes(sigs.value)| == |m.data|;
    return Some(table[m.rel := (m.blockLen, sigs.value)]);
  }

  /** The first loop of `serve_fetch`: a FETCH_SIG frame for each path. */
  method GatherBases(w: World, t: Tree, rels: seq<string>, inbox: seq<Msg>, from: nat)
    returns (upTo: nat, table: BasisTable, end: End, ghost n: nat, ghost s1: AgentState)
    requires from <= |inbox| && FramesFit(inbox)
    ensures from <= upTo <= |inbox| && BasisFits(table)
    ensures Follows(w, GatherNext(t, rels, |rels|, map[]), n, inbox[from..upTo], [], s1)
    ensures if end.Complete? then s1 == FetchNext(t, rels, table) else EndsIn(w, t, end, s1)
    ensures end.HungUp? ==> upTo == |inbox|
  {
    hide Follows, KeepBasis;
    ghost var s := GatherNext(t, rels, |rels|, map[]);
    upTo, table, end, n, s1 := from, map[], Complete, 0, s;
    assert inbox[from..from] == [];
    Starts(w, s);
    var left: nat := |rels|;
    while left > 0
      invariant from <= upTo <= |inbox| && BasisFits(table) && s1 == GatherNext(t, rels, left, table)
      invariant Follows(w, s, n, inbox[from..upTo], [], s1)
    {
      if upTo == |inbox| {
        return upTo, table, HungUp, n, s1;
      }
      var m := inbox[upTo];
      TakeNext(inbox, from, upTo);
      Takes(w, s, n, inbox[from..upTo], [], s1, m);
      upTo, n, s1 := upTo + 1, n + 1, AgentGot(w, s1, m);
      if !m.FetchSig? {
        return upTo, table, Failure, n, s1;
      }
      assert m in inbox;
      var more := KeepSig(table, m.basis);
      if more.None? {
        return upTo, table, Failure, n, s1;
      }
      table, left := more.value, left - 1;
    }
  }

  /** `serve_fetch`. */
  method ServeFetch(store: Store, w: World, h: StrongHash, rels: seq<string>, inbox: seq<Msg>, from: nat)
    returns (upTo: nat, outbox: seq<Msg>, end: End, ghost n: nat, ghost s1: AgentState)
    requires w.f == DigestOf(h) && from <= |inbox| && FramesFit(inbox)
    ensures from <= upTo <= |inbox| && (end.HungUp? ==> upTo == |inbox|)
    ensures Follows(w, GatherNext(store.tree, rels, |rels|, map[]), n, inbox[from..upTo], outbox, s1)
    ensures EndsIn(w, store.tree, end, s1)
  {
    hide Follows, AnswerFor;
    ghost var s, t := GatherNext(store.tree, rels, |rels|, map[]), store.tree;
    var table;
    upTo, table, end, n, s1 := GatherBases(w, store.tree, rels, inbox, from);
    outbox := [];
    if !end.Complete? {
      return;
    }
    assert rels[0..] == rels;
    for k := 0 to |rels|
      invariant s1 == FetchNext(t, rels[k..], table) && end.Complete?
      invariant Follows(w, s, n, inbox[from..upTo], outbox, s1)
    {
      assert rels[k..][0] == rels[k] && rels[k..][1..] == rels[k + 1..];
      var answer := AnswerFile(store, h, rels[k], table);
      if answer.None? {
        return upTo, outbox, Failure, n, s1;
      }
      Gives(w, s, n, inbox[from..upTo], outbox, s1);
      n, s1 := n + 1, AgentSent(w, s1);
      outbox := outbox + [Fetched(answer.value)];
    }
    Gives(w, s, n, inbox[from..upTo], outbox, s1);
    n, s1 := n + 1, AgentSent(w, s1);
    outbox := outbox + [DoneFrame];
  }

  // ----- the outer loop -----

  lemma Continues(w: World, s: AgentState, n: nat, given: seq<Msg>, s1: AgentState, inbox: seq<Msg>, k: nat,
                  m: nat, upTo: nat, given1: seq<Msg>, s2: AgentState)
    requires k <= upTo <= |inbox|
    requires Follows(w, s, n, inbox[..k], given, s1) && Follows(w, s1, m, inbox[k..upTo], given1, s2)
    ensures Follows(w, s, n + m, inbox[..upTo], given + given1, s2)
  {
    TracesAppend(Agent(w), s, n, inbox[..k], given, s1, m, inbox[k..upTo], given1, s2);
    assert inbox[..k] + inbox[k..upTo] == inbox[..upTo];
  }

  /** What one sync passes through is part of what the whole process does. */
  lemma PassedBefore(w: World, suffix: (Tree, Path) -> string, s: AgentState, n: nat, given: seq<Msg>, s1: AgentState,
                     inbox: seq<Msg>, from: nat, upTo: nat, mid: Tree)
    requires from <= upTo <= |inbox| && Follows(w, s, n, inbox[..from], given, s1)
    requires Passed(w, suffix, s1, inbox, from, upTo, mid)
    ensures Passed(w, suffix, s, inbox, 0, upTo, mid)
  {
    hide Follows, FrameMoment;
    var k: nat, m: nat, given1, t :| from <= k < upTo &&
      Follows(w, s1, m, inbox[from..k], given1, Serving(t)) && FrameMoment(w, suffix, t, inbox[k], mid);
    Continues(w, s, n, given, s1, inbox, from, m, k, given1, Serving(t));
    assert inbox[0..k] == inbox[..k];
  }

  /** A run of the agent process: what it writes is what its peer writes to the last
    * frame it takes, and it stops or waits in vain. A request cut off by the end of the
    * input adds an ERROR frame that nobody reads. */
  ghost predicate Ran(w: World, t: Tree, inbox: seq<Msg>, n: nat, upTo: nat, outbox: seq<Msg>, cutOff: bool, s1: AgentState)
  {
    && upTo <= |inbox|
    && (s1.Closed? || (upTo == |inbox| && AgentAct(w, s1).Recv?))
    && if cutOff then
         && upTo == |inbox| && AgentAct(w, s1).Recv? && outbox != [] && outbox[|outbox| - 1] == ErrorFrame
         && Follows(w, Greeting(t), n, inbox[..upTo], outbox[..|outbox| - 1], s1)
       else Follows(w, Greeting(t), n, inbox[..upTo], outbox, s1)
  }

  /** `serve`: the agent process, given everything the client sends. */
  method Serve(store: Store, w: World, h: StrongHash, suffix: (Tree, Path) -> string, inbox: seq<Msg>)
    returns (upTo: nat, outbox: seq<Msg>, cutOff: bool, ghost n: nat, ghost s1: AgentState)
    requires w.f == DigestOf(h) && FreshNames(suffix) && FramesFit(inbox)
    modifies store
    ensures Ran(w, old(store.tree), inbox, n, upTo, outbox, cutOff, s1) && s1.tree == store.tree
    ensures store.Extends(old(store.trail))
    ensures forall mid <- store.Since(old(store.trail)) ::
              Passed(w, suffix, Greeting(old(store.tree)), inbox, 0, upTo, mid)
  {
    hide Follows, FreshNames, FramesFit, GatherNext, FrameMoment, Passed;
    ghost var s := Greeting(store.tree);
    Starts(w, s);
    Gives(w, s, 0, [], [], s);
    assert inbox[..0] == [] && [] + [Hello] == [Hello];
    outbox, upTo, cutOff, n, s1 := [Hello], 0, false, 1, Idle(store.tree);
    while upTo < |inbox|
      invariant upTo <= |inbox| && !cutOff && s1 == Idle(store.tree)
      invariant Follows(w, s, n, inbox[..upTo], outbox, s1)
      invariant store.Extends(old(store.trail))
      invariant forall mid <- store.Since(old(store.trail)) :: Passed(w, suffix, s, inbox, 0, upTo, mid)
    {
      var m := inbox[upTo];
      assert inbox[..upTo] + [m] == inbox[..upTo + 1];
      Takes(w, s, n, inbox[..upTo], outbox, s1, m);
      n, s1, upTo := n + 1, AgentGot(w, s1, m), upTo + 1;
      forall mid <- store.Since(old(store.trail)) ensures Passed(w, suffix, s, inbox, 0, upTo, mid) {
        PassedStill(w, suffix, s, inbox, 0, upTo - 1, upTo, mid);
      }
      if m.Quit? {
        return;
      }
      var out, end, k;
      ghost var n1, s2;
      out, end, k, n1, s2 := ServeRequest(store, w, h, suffix, m, inbox, upTo, old(store.trail), s, n, outbox, s1);
      outbox, n, s1, upTo := outbox + out, n + n1, s2, k;
      if end.HungUp? {
        assert (outbox + [ErrorFrame])[..|outbox|] == outbox;
        return upTo, outbox + [ErrorFrame], true, n, s1;
      }
      if end.Failure? {
        Gives(w, s, n, inbox[..upTo], outbox, s1);
        return upTo, outbox + [ErrorFrame], false, n + 1, Closed(store.tree);
      }
    }
  }

  /** One request of the outer loop, the first frame of which is `m`. */
  method ServeRequest(store: Store, w: World, h: StrongHash, suffix: (Tree, Path) -> string, m: Msg,
                      inbox: seq<Msg>, from: nat, ghost trail0: seq<Tree>, ghost s: AgentState,
                      ghost n: nat, ghost given: seq<Msg>, ghost s1: AgentState)
    returns (out: seq<Msg>, end: End, upTo: nat, ghost n1: nat, ghost s2: AgentState)
    requires w.f == DigestOf(h) && FreshNames(suffix) && FramesFit(inbox) && from <= |inbox|
    requires !m.Quit? && s1 == AgentGot(w, Idle(store.tree), m) && Follows(w, s, n, inbox[..from], given, s1)
    requires store.Extends(trail0) && forall mid <- store.Since(trail0) :: Passed(w, suffix, s, inbox, 0, from, mid)
    modifies store
    ensures from <= upTo <= |inbox| && (end.HungUp? ==> upTo == |inbox|)
    ensures Follows(w, s, n + n1, inbox[..upTo], given + out, s2) && EndsIn(w, store.tree, end, s2)
    ensures store.Extends(trail0) && forall mid <- store.Since(trail0) :: Passed(w, suffix, s, inbox, 0, upTo, mid)
  {
    hide Follows, FreshNames, FramesFit, GatherNext, FrameMoment, Passed;
    out, end, upTo, n1, s2 := [], Failure, from, 0, s1;
    ghost var was := store.trail;
    assert given + [] == given;
    match m {
      case SyncReq(ex) =>
        upTo, out, end, n1, s2 := ServeSync(store, w, h, suffix, ex, inbox, from);
        Continues(w, s, n, given, s1, inbox, from, n1, upTo, out, s2);
        forall mid <- store.Since(trail0) ensures Passed(w, suffix, s, inbox, 0, upTo, mid) {
          if mid in store.Since(was) {
            PassedBefore(w, suffix, s, n, given, s1, inbox, from, upTo, mid);
          } else {
            OldOrNew(trail0, was, store.trail, mid);
            PassedStill(w, suffix, s, inbox, 0, from, upTo, mid);
          }
        }
      case FetchReq(rels) =>
        upTo, out, end, n1, s2 := ServeFetch(store, w, h, rels, inbox, from);
        Continues(w, s, n, given, s1, inbox, from, n1, upTo, out, s2);
        forall mid <- store.Since(trail0) ensures Passed(w, suffix, s, inbox, 0, upTo, mid) {
          PassedStill(w, suffix, s, inbox, 0, from, upTo, mid);
        }
      case _ =>
    }
  }
}
