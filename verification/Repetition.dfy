/** Syncing again: after a sync that reached DONE there is nothing left to do, and
  * after one that was cut short a new one still converges. */
module Repetition {
  import opened Paths
  import opened FileTree
  import opened SyncPlan
  import opened Convergence
  import opened Safety
  import opened Session
  import opened AgentPeer
  import opened SyncProtocol

  // ----- after DONE -----

  /** The next sync of the same local tree, at some later time. */
  function NextJob(j: Job, t: Tree, now: nat): Job
  {
    j.(remote := t, now := now)
  }

  lemma NextIsSetUp(j: Job, t: Tree, delete: bool, now: nat)
    requires Setup(j) && Converged(j, t, delete) && UpToDate(j, t)
    ensures Setup(NextJob(j, t, now))
  {
    hide Kept, Extra, ToSend, Suspect, Sendable, DeltaSafe, Converged, UpToDate, Shaped, RootReady;
    var k := NextJob(j, t, now);
    assert forall p :: Ours(k, p) <==> Ours(j, p);
    forall p | Ours(k, p)
      ensures !ToSend(k, p) && (k.local[p].File? && Suspect(k, p) ==> k.local[p].mtime >= 0)
      ensures p in t ==> (k.local[p].Dir? <==> t[p].Dir?)
      ensures BothFiles(k, p) ==> NoCollision(k, p) && Trustworthy(k.local[p], t[p])
    {
      NothingToSend(j, t, now, p);
      NextPath(j, t, delete, now, p);
    }
    NextIsShaped(j, t, delete, now);
    RootStays(j, t, delete, now);
  }

  /** What is in place needs no hypothesis. */
  lemma NextPath(j: Job, t: Tree, delete: bool, now: nat, p: Path)
    requires Setup(j) && Converged(j, t, delete) && UpToDate(j, t) && Ours(j, p)
    ensures var k := NextJob(j, t, now);
            && (k.local[p].File? && Suspect(k, p) ==> k.local[p].mtime >= 0)
            && (p in t ==> (k.local[p].Dir? <==> t[p].Dir?))
            && (BothFiles(k, p) ==> NoCollision(k, p) && Trustworthy(k.local[p], t[p]))
  {
    hide Kept, Extra, Sendable, DeltaSafe, Excluded, RootReady, Trusted, NoBackslash, MetaOf;
    var k := NextJob(j, t, now);
    if p == [] {
      assert j.local[p] == Dir && (p in t ==> t[p] == Dir);
    } else {
      if j.local[p].File? && 0 < |j.local[p].content| <= VERIFY_MAX {
        SentOrSuspect(j, p);
      }
    }
  }

  lemma SentOrSuspect(j: Job, p: Path)
    requires Ours(j, p) && p != [] && j.local[p].File? && 0 < |j.local[p].content| <= VERIFY_MAX
    ensures ToSend(j, p) || Suspect(j, p)
  {}

  lemma NextIsShaped(j: Job, t: Tree, delete: bool, now: nat)
    requires Setup(j) && Converged(j, t, delete)
    ensures Shaped(NextJob(j, t, now))
  {
    hide Excluded, Plain, Kept, Extra, KindsAgree, LinksAccepted, RootReady, FilesSendable, NoCollision, Trusted, SameNode;
    forall q | Visible(q, t, j.ex) ensures Plain(q) {
      assert Ours(j, q) ==> Visible(q, j.local, j.ex);
      assert q in j.remote ==> Visible(q, j.remote, j.ex);
    }
  }

  lemma NothingToSend(j: Job, t: Tree, now: nat, p: Path)
    requires UpToDate(j, t)
    ensures !ToSend(NextJob(j, t, now), p)
  {
    hide MetaOf, SameEntry, Alike, Suspect, Excluded;
    var k := NextJob(j, t, now);
    assert Ours(k, p) <==> Ours(j, p);
    if Altered(k, p) {
      SuspectIsOurs(k, p);
    }
  }

  lemma SuspectIsOurs(j: Job, p: Path)
    requires Suspect(j, p)
    ensures BothFiles(j, p) && p != []
  {}

  lemma RootStays(j: Job, t: Tree, delete: bool, now: nat)
    requires Setup(j) && Converged(j, t, delete)
    ensures RootReady(NextJob(j, t, now))
  {
    var k := NextJob(j, t, now);
    assert forall p :: Ours(k, p) <==> Ours(j, p);
    if p :| Ours(j, p) && p != [] {
      PrefixIsDir(t, p, []);
    }
  }

  lemma NothingToMake(j: Job, t: Tree, delete: bool, now: nat, side: Side, w: World)
    requires Setup(j) && Converged(j, t, delete) && UpToDate(j, t)
    requires Peers(NextJob(j, t, now), side, w)
    ensures NothingNew(NextJob(j, t, now), side, w)
    ensures var plan := ThePlan(NextJob(j, t, now), side, w); plan.mkdirs == [] && plan.sends == [] && plan.sigWanted == []
  {
    hide SameNode, SameEntry, Alike, MetaOf, Setup, Kept, Extra, PlanOf, Stale, Altered;
    var k := NextJob(j, t, now);
    var ls, rs := side.listing, w.walk(t, j.ex);
    var plan := ThePlan(k, side, w);
    NextIsSetUp(j, t, delete, now);
    forall p ensures !ToSend(k, p) && !Stale(k, p) {
      NothingToSend(j, t, now, p);
    }
    PlansNothing(k, ls, rs, side.delete);
  }

  lemma PlansNothing(k: Job, ls: seq<Meta>, rs: seq<Meta>, delete: bool)
    requires Setup(k) && Listed(k, ls, rs)
    requires forall p :: !Stale(k, p)
    requires forall p | Ours(k, p) && p != [] :: p in k.remote
    ensures var plan := PlanOf(ls, rs, delete); plan.mkdirs == [] && plan.sends == [] && plan.sigWanted == []
  {
    hide Setup, Listed, PlanOf, Stale, Altered, Excluded;
    var plan := PlanOf(ls, rs, delete);
    assert plan.sends != [] ==> plan.sends[0] in plan.sends;
    PlanSends(k, ls, rs, delete);
    if plan.mkdirs != [] {
      assert plan.mkdirs[0] in plan.mkdirs;
      PlanMkdirs(k, ls, rs, delete, plan.mkdirs[0]);
    }
    if plan.sigWanted != [] {
      assert plan.sigWanted[0] in plan.sigWanted;
      PlanSigWanted(k, ls, rs, delete, plan.sigWanted[0]);
    }
  }

  /** What a delete=true sync had to leave behind cannot be deleted again. */
  lemma NothingToDelete(j: Job, t: Tree, delete: bool, now: nat, side: Side, w: World)
    requires Setup(j) && Converged(j, t, delete) && UpToDate(j, t)
    requires Peers(NextJob(j, t, now), side, w) && (side.delete ==> delete)
    ensures DeleteAll(t, ThePlan(NextJob(j, t, now), side, w).deletes) == t
  {
    var k := NextJob(j, t, now);
    if side.delete {
      NextIsSetUp(j, t, delete, now);
      PlanDeletes(k, side.listing, w.walk(t, j.ex));
      ExtrasStay(j, t, now, ThePlan(k, side, w).deletes);
    }
  }

  lemma ExtrasStay(j: Job, t: Tree, now: nat, ds: seq<Path>)
    requires Converged(j, t, true) && Setup(NextJob(j, t, now)) && DeepestFirst(ds)
    requires forall p :: p in ds <==> Extra(NextJob(j, t, now), p)
    ensures DeleteAll(t, ds) == t
  {
    hide Setup, DeleteAll;
    var k := NextJob(j, t, now);
    NextStartsGood(k);
    DeleteListOk(k, t, {}, ds);
    DeleteAllExact(t, ds, j.ex, |ds|);
    assert ds[..|ds|] == ds;
    forall p | p in ds ensures Kept(t, j.ex, p) {
      assert Extra(k, p);
      StaysKept(j, t, p);
    }
  }

  lemma NextStartsGood(k: Job)
    requires Setup(k)
    ensures Good(k, k.remote, {}) && WellFormed(k.remote)
  {
    StartIsGood(k);
  }

  lemma StaysKept(j: Job, t: Tree, p: Path)
    requires Converged(j, t, true) && p in t && p != [] && !Excluded(p, j.ex) && p !in j.local
    ensures Kept(t, j.ex, p)
  {
    assert Kept(j.remote, j.ex, p) && t[p] == j.remote[p];
    var x :| x in j.remote && IsAbove(p, x) && Excluded(x, j.ex);
    assert x in t;
  }

  /** Idempotence: when a sync has run to its end, in whatever interleaving, and no
    * local time lies in the future, a second sync of the same local tree plans
    * nothing, finds no altered file, and in every interleaving ends with zero files
    * sent and the remote tree as it was. */
  lemma SecondSyncIsIdle(j: Job, side: Side, w: World, room: nat, xs: seq<Config<ClientState, AgentState, Msg>>,
                         now: nat, side2: Side, w2: World, room2: nat, ys: seq<Config<ClientState, AgentState, Msg>>)
    requires Honest(j, side, w) && InThePast(j) && room >= 1 && room2 >= 1
    requires Execution(Client(side), Agent(w), room, AwaitHello, Greeting(j.remote), xs)
    requires Stuck(Client(side), Agent(w), room, xs[|xs| - 1])
    requires var t := xs[|xs| - 1].a.tree;
             && Peers(NextJob(j, t, now), side2, w2) && (side2.delete ==> side.delete)
             && Execution(Client(side2), Agent(w2), room2, AwaitHello, Greeting(t), ys)
    ensures var t, y := xs[|xs| - 1].a.tree, ys[|ys| - 1];
            var k := NextJob(j, t, now);
            var plan := ThePlan(k, side2, w2);
            && plan.mkdirs == [] && plan.sends == [] && plan.sigWanted == [] && (forall p :: !Altered(k, p))
            && (Stuck(Client(side2), Agent(w2), room2, y) ==> y.c == Finished(0) && y.a == Closed(t))
  {
    hide Setup, Peers, Converged, UpToDate, InThePast, Stuck, Safe, FrameSafe, NothingNew, FilesToSend;
    var t := xs[|xs| - 1].a.tree;
    var k := NextJob(j, t, now);
    SyncInEveryInterleaving(j, side, w, room, xs);
    NextIsSetUp(j, t, side.delete, now);
    NothingToMake(j, t, side.delete, now, side2, w2);
    NothingToDelete(j, t, side.delete, now, side2, w2);
    forall p ensures !Altered(k, p) {
      NothingToSend(j, t, now, p);
    }
    NothingToCount(k, side2, w2);
    SyncInEveryInterleaving(k, side2, w2, room2, ys);
  }

  // ----- after a stop -----

  /** Whatever a sync that was cut short has left behind, staging files included: a
    * new sync of the same local tree converges, in every interleaving, and every
    * excluded entry is still as it was before the first sync. */
  lemma SyncAfterStop(j: Job, mid: Tree, temps: set<Path>, now: nat, side: Side, w: World,
                      room: nat, xs: seq<Config<ClientState, AgentState, Msg>>)
    requires Setup(j) && Resendable(j) && CrashSafe(j, mid, temps) && room >= 1
    requires Peers(NextJob(j, mid, now), side, w)
    requires Execution(Client(side), Agent(w), room, AwaitHello, Greeting(mid), xs)
    requires Stuck(Client(side), Agent(w), room, xs[|xs| - 1])
    ensures var x := xs[|xs| - 1];
            && x.c.Finished? && x.a.Closed? && Converged(NextJob(j, mid, now), x.a.tree, side.delete)
            && (forall p | p in j.remote && Excluded(p, j.ex) :: p in x.a.tree && x.a.tree[p] == j.remote[p])
            && (side.delete ==> forall p | p in temps && p in x.a.tree && p != [] :: Excluded(p, j.ex) || Kept(mid, j.ex, p))
  {
    hide Setup, Peers, Stuck, Execution, Safe, FrameSafe, NothingNew, Resendable;
    SafeToRestart(j, mid, temps);
    ClockDoesNotMatter(j.(remote := mid), now);
    SyncInEveryInterleaving(NextJob(j, mid, now), side, w, room, xs);
    forall p | p in j.remote && Excluded(p, j.ex) ensures p in mid && mid[p] == j.remote[p] {
      CrashSafeMeans(j, mid, temps, p);
    }
  }

  lemma ClockDoesNotMatter(j: Job, now: nat)
    requires Setup(j)
    ensures Setup(j.(now := now))
  {
    var k := j.(now := now);
    assert forall p :: Ours(k, p) <==> Ours(j, p);
    assert forall p :: BothFiles(k, p) <==> BothFiles(j, p);
    assert forall p :: ToSend(k, p) <==> ToSend(j, p);
  }

  /** The agent is stopped with `mid` below its root: between two frames, or at some
    * moment of the frame it has taken from the channel. */
  ghost predicate StoppedAt(j: Job, x: Config<ClientState, AgentState, Msg>, mid: Tree, temps: set<Path>)
  {
    || (mid == x.a.tree && temps == {})
    || (x.up != [] &&
        match x.up[0]
        case Mkdir(ps) => temps == {} && MkdirMoment(x.a.tree, ps, mid)
        case PutFrame(put) =>
          exists tmp :: temps == {tmp} && FreshTemp(j, x.a.tree, put.path, tmp) && PutMoment(x.a.tree, put, j.now, tmp, mid)
        case Delete(ds) => temps == {} && DeleteMoment(x.a.tree, ds, mid)
        case _ => false)
  }

  /** Wherever any run of a sync is cut short, the remote tree is safe, and a new sync
    * from there converges in every interleaving. */
  lemma StopAndSyncAgain(j: Job, side: Side, w: World, room: nat, xs: seq<Config<ClientState, AgentState, Msg>>,
                         mid: Tree, temps: set<Path>, now: nat, side2: Side, w2: World,
                         room2: nat, ys: seq<Config<ClientState, AgentState, Msg>>)
    requires Honest(j, side, w) && Resendable(j) && room >= 1 && room2 >= 1
    requires Execution(Client(side), Agent(w), room, AwaitHello, Greeting(j.remote), xs)
    requires StoppedAt(j, xs[|xs| - 1], mid, temps) && Peers(NextJob(j, mid, now), side2, w2)
    requires Execution(Client(side2), Agent(w2), room2, AwaitHello, Greeting(mid), ys)
    requires Stuck(Client(side2), Agent(w2), room2, ys[|ys| - 1])
    ensures CrashSafe(j, mid, temps)
    ensures var y := ys[|ys| - 1];
            && y.c.Finished? && y.a.Closed? && Converged(NextJob(j, mid, now), y.a.tree, side2.delete)
            && (forall p | p in j.remote && Excluded(p, j.ex) :: p in y.a.tree && y.a.tree[p] == j.remote[p])
  {
    hide Setup, Peers, Stuck, CrashSafe, Resendable, MkdirMoment, PutMoment, DeleteMoment, FreshTemp, Converged;
    SyncInEveryInterleaving(j, side, w, room, xs);
    SyncAfterStop(j, mid, temps, now, side2, w2, room2, ys);
  }
}
