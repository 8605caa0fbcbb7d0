/** The sync conversation of src/agent.rs as two peers, frame by frame, and what it
  * achieves in every interleaving. */
module SyncProtocol {
  import opened Paths
  import opened Signatures
  import opened FileTree
  import opened SyncPlan
  import opened Convergence
  import opened Safety
  import opened Session
  import opened AgentPeer
  import WireSizes

  // ----- the client: `Agent::start`, `sync`, `quit` -----

  datatype Side = Side(f: Digest, local: Tree, listing: seq<Meta>, ex: seq<Path>, delete: bool)

  datatype Next =
    | ThenList
    | ThenCollect(plan: Plan, remote: Entries)
    | ThenDone(files: nat)
    | ThenFinish(files: nat)
    | ThenBreak

  datatype ClientState =
    | AwaitHello
    | Sending(queue: seq<Msg>, next: Next)
    | AwaitList
    | Collecting(plan: Plan, remote: Entries, i: nat, table: SigTable, changed: seq<Meta>)
    | AwaitDone(files: nat)
    | Finished(files: nat)
    | Broken

  function ClientAct(s: ClientState): Act<Msg>
  {
    match s
    case Sending(queue, _) => if queue == [] then Stop else Send(queue[0])
    case Finished(_) => Stop
    case Broken => Stop
    case _ => Recv
  }

  function PutFrames(puts: seq<Put>): (ms: seq<Msg>)
    ensures |ms| == |puts|
  {
    seq(|puts|, i requires 0 <= i < |puts| => PutFrame(puts[i]))
  }

  function CountFiles(ms: seq<Meta>): nat
  {
    if ms == [] then 0 else (if ms[0].kind.KFile? then 1 else 0) + CountFiles(ms[1..])
  }

  /** The files among the entries. */
  ghost function FilePaths(ms: seq<Meta>): set<Path>
  {
    set i | 0 <= i < |ms| && ms[i].kind.KFile? :: ms[i].path
  }

  ghost function FilesToSend(j: Job): set<Path>
  {
    set p | p in j.local && ToSend(j, p) && j.local[p].File?
  }

  lemma FirstFile(ms: seq<Meta>)
    requires ms != []
    ensures FilePaths(ms) == FilePaths(ms[1..]) + if ms[0].kind.KFile? then {ms[0].path} else {}
  {
    var m, rest := ms[0], FilePaths(ms[1..]);
    forall p ensures p in FilePaths(ms) <==> p in rest || (m.kind.KFile? && p == m.path) {
      if i :| 0 <= i < |ms| && ms[i].kind.KFile? && ms[i].path == p {
        assert i > 0 ==> ms[1..][i - 1] == ms[i];
      }
      if i :| 0 <= i < |ms| - 1 && ms[1..][i].kind.KFile? && ms[1..][i].path == p {
        assert ms[i + 1] == ms[1..][i];
      }
    }
  }

  lemma {:induction false} CountDistinct(ms: seq<Meta>)
    requires DistinctPaths(ms)
    ensures CountFiles(ms) == |FilePaths(ms)|
  {
    if ms == [] {
      assert FilePaths(ms) == {};
    } else {
      CountDistinct(ms[1..]);
      assert ms[0].path !in FilePaths(ms[1..]);
      FirstFile(ms);
    }
  }

  /** The count is the number of files that have to be sent. */
  lemma CountIs(j: Job, sends: seq<Meta>)
    requires SendsAll(j, sends)
    ensures CountFiles(sends) == |FilesToSend(j)|
  {
    hide ToSend;
    CountDistinct(sends);
    forall p ensures p in FilePaths(sends) <==> p in FilesToSend(j) {
      if p in FilePaths(sends) {
        var i :| 0 <= i < |sends| && sends[i].kind.KFile? && sends[i].path == p;
        assert sends[i] in sends;
        ToSendIsOurs(j, p);
      }
      if p in FilesToSend(j) {
        var m := MetaOf(p, j.local[p]);
        assert ToSend(j, m.path) && m in sends;
        var i :| 0 <= i < |sends| && sends[i] == m;
      }
    }
    assert FilePaths(sends) == FilesToSend(j);
  }

  lemma ToSendIsOurs(j: Job, p: Path)
    requires ToSend(j, p)
    ensures Ours(j, p)
  {}

  /** What follows the PUT frames. */
  function Closing(deletes: seq<Path>): seq<Msg>
  {
    (if deletes == [] then [] else [Delete(deletes)]) + [PlanDone]
  }

  /** All signatures are in: send the files, the deletions and PLAN_DONE. */
  function StartPuts(side: Side, plan: Plan, table: SigTable, changed: seq<Meta>): ClientState
  {
    var sends := plan.sends + changed;
    var (puts, ok) := PutsFor(side.f, side.local, sends, table);
    if ok then Sending(PutFrames(puts) + Closing(plan.deletes), ThenDone(CountFiles(sends)))
    else if puts == [] then Broken
    else Sending(PutFrames(puts), ThenBreak)
  }

  function Wanted(plan: Plan): seq<Path>
  {
    plan.sigWanted + PathsOf(plan.verify)
  }

  function After(side: Side, next: Next): ClientState
  {
    match next
    case ThenList => AwaitList
    case ThenCollect(plan, remote) =>
      if Wanted(plan) == [] then StartPuts(side, plan, map[], []) else Collecting(plan, remote, 0, map[], [])
    case ThenDone(n) => AwaitDone(n)
    case ThenFinish(n) => Finished(n)
    case ThenBreak => Broken
  }

  function SendThen(side: Side, queue: seq<Msg>, next: Next): ClientState
  {
    if queue == [] then After(side, next) else Sending(queue, next)
  }

  function ClientSent(side: Side, s: ClientState): ClientState
  {
    match s
    case Sending(queue, next) => if queue == [] then s else SendThen(side, queue[1..], next)
    case _ => s
  }

  function Requests(plan: Plan): seq<Msg>
  {
    (if plan.mkdirs == [] then [] else [Mkdir(plan.mkdirs)]) +
    (if Wanted(plan) == [] then [] else [SigReq(Wanted(plan))])
  }

  /** The `i`-th SIG frame: a basis for a delta, or a check of an unchanged file. */
  function Collected(side: Side, s: ClientState, reply: SigReply): ClientState
    requires s.Collecting?
  {
    var Collecting(plan, remote, i, table, changed) := s;
    var k := |plan.sigWanted|;
    if i >= |Wanted(plan)| then Broken
    else if i < k then
      match GatherOne(table, plan.sigWanted[i], reply, remote)
      case None => Broken
      case Some(more) => Resume(side, plan, remote, i + 1, more, changed)
    else
      match VerifyOne(side.f, side.local, plan.verify[i - k], reply)
      case None => Broken
      case Some(differs) =>
        Resume(side, plan, remote, i + 1, table, changed + if differs then [plan.verify[i - k]] else [])
  }

  function Resume(side: Side, plan: Plan, remote: Entries, i: nat, table: SigTable, changed: seq<Meta>): ClientState
  {
    if i == |Wanted(plan)| then StartPuts(side, plan, table, changed) else Collecting(plan, remote, i, table, changed)
  }

  function ClientGot(side: Side, s: ClientState, m: Msg): ClientState
  {
    match s
    case AwaitHello => if m.Hello? then Sending([SyncReq(side.ex)], ThenList) else Broken
    case AwaitList =>
      if m.Listing? then
        var plan := PlanOf(side.listing, m.entries, side.delete);
        SendThen(side, Requests(plan), ThenCollect(plan, MapOf(m.entries)))
      else Broken
    case Collecting(_, _, _, _, _) => if m.Sig? then Collected(side, s, m.reply) else Broken
    case AwaitDone(n) => if m.DoneFrame? then Sending([Quit], ThenFinish(n)) else Broken
    case _ => Broken
  }

  /** A frame that the client is not waiting for ends its side. */
  lemma WrongFrameBreaks(side: Side, s: ClientState, m: Msg)
    requires ClientAct(s).Recv?
    ensures (match s
             case AwaitHello => !m.Hello?
             case AwaitList => !m.Listing?
             case Collecting(_, _, _, _, _) => !m.Sig?
             case AwaitDone(_) => !m.DoneFrame?
             case _ => true) ==>
              ClientGot(side, s, m) == Broken && ClientAct(ClientGot(side, s, m)) == Stop
  {}

  function Client(side: Side): Peer<ClientState, Msg>
  {
    Peer((s: ClientState) => ClientAct(s), (s: ClientState) => ClientSent(side, s),
         (s: ClientState, m: Msg) => ClientGot(side, s, m))
  }

  // ----- one conversation -----

  /** Peers that work on the trees of the job and list them truthfully. */
  ghost predicate Peers(j: Job, side: Side, w: World)
  {
    && side.f == j.f && side.local == j.local && side.ex == j.ex && Lists(side.listing, j.local, j.ex)
    && w.f == j.f && w.now == j.now && Lists(w.walk(j.remote, j.ex), j.remote, j.ex)
  }

  /** An honest pair of peers with a sync to do. */
  ghost predicate Honest(j: Job, side: Side, w: World)
  {
    Setup(j) && Peers(j, side, w)
  }

  ghost function ThePlan(j: Job, side: Side, w: World): Plan
  {
    PlanOf(side.listing, w.walk(j.remote, j.ex), side.delete)
  }

  /** At no moment while the agent handles the frame is the tree left unsafe. */
  ghost predicate FrameSafe(j: Job, t: Tree, m: Msg)
  {
    match m
    case Mkdir(ps) => forall mid | MkdirMoment(t, ps, mid) :: CrashSafe(j, mid, {})
    case PutFrame(put) =>
      put.path != [] && forall tmp, mid | FreshTemp(j, t, put.path, tmp) && PutMoment(t, put, j.now, tmp, mid) ::
        CrashSafe(j, mid, {tmp})
    case Delete(ds) => forall mid | DeleteMoment(t, ds, mid) :: CrashSafe(j, mid, {})
    case _ => true
  }

  /** A PUT frame carries what it must. */
  ghost predicate FrameCarries(j: Job, m: Msg)
  {
    m.PutFrame? ==> Carries(j, m.put)
  }

  /** Neither peer has failed, the frames they send next fit, the remote tree is safe,
    * and stays so during the frame that the client is about to send. */
  ghost predicate AllWell(j: Job, c: ClientState, a: AgentState)
  {
    && !c.Broken? && !a.Failing? && Safe(j, a.tree) && NextFits(j.f, a)
    && (c.Sending? && c.queue != [] ==>
          FrameSafe(j, a.tree, c.queue[0]) && DataFits(c.queue[0]) && FrameCarries(j, c.queue[0]))
  }

  ghost function Inv(j: Job): (ClientState, AgentState) -> bool
  {
    (c: ClientState, a: AgentState) => AllWell(j, c, a)
  }

  ghost predicate Gets(j: Job, side: Side, w: World, c: ClientState, a: AgentState, n: nat, c1: ClientState, a1: AgentState)
  {
    Runs(Client(side), Agent(w), Inv(j), c, a, n, c1, a1)
  }

  lemma Then(j: Job, side: Side, w: World, c: ClientState, a: AgentState, n: nat, c1: ClientState, a1: AgentState,
             m: nat, c2: ClientState, a2: AgentState)
    requires Gets(j, side, w, c, a, n, c1, a1) && Gets(j, side, w, c1, a1, m, c2, a2)
    ensures Gets(j, side, w, c, a, n + m, c2, a2)
  {
    RunsAppend(Client(side), Agent(w), Inv(j), c, a, n, c1, a1, m, c2, a2);
  }

  lemma ClientSends(j: Job, side: Side, w: World, c: ClientState, a: AgentState, c1: ClientState, a1: AgentState)
    requires ClientAct(c).Send? && AgentAct(w, a).Recv?
    requires c1 == ClientSent(side, c) && a1 == AgentGot(w, a, ClientAct(c).msg)
    requires AllWell(j, c, a) && AllWell(j, c1, a1)
    ensures Gets(j, side, w, c, a, 1, c1, a1)
  {
    var client, agent, inv := Client(side), Agent(w), Inv(j);
    assert CanMeet(client, agent, c, a) && Meet(client, agent, c, a) == (c1, a1);
    assert Runs(client, agent, inv, c1, a1, 0, c1, a1);
  }

  lemma AgentSends(j: Job, side: Side, w: World, c: ClientState, a: AgentState, c1: ClientState, a1: AgentState)
    requires ClientAct(c).Recv? && AgentAct(w, a).Send?
    requires c1 == ClientGot(side, c, AgentAct(w, a).msg) && a1 == AgentSent(w, a)
    requires AllWell(j, c, a) && AllWell(j, c1, a1)
    ensures Gets(j, side, w, c, a, 1, c1, a1)
  {
    var client, agent, inv := Client(side), Agent(w), Inv(j);
    assert CanMeet(client, agent, c, a) && Meet(client, agent, c, a) == (c1, a1);
    assert Runs(client, agent, inv, c1, a1, 0, c1, a1);
  }

  lemma Stay(j: Job, side: Side, w: World, c: ClientState, a: AgentState)
    requires AllWell(j, c, a)
    ensures Gets(j, side, w, c, a, 0, c, a)
  {
    assert Inv(j)(c, a);
  }

  // ----- the phases -----

  lemma SafeStart(j: Job)
    requires Setup(j)
    ensures Safe(j, j.remote)
  {
    StartIsGood(j);
    GoodIsSafe(j, j.remote, {});
  }

  /** The tree after the MKDIR frame. */
  ghost function AfterMkdir(j: Job, plan: Plan): Tree
  {
    CreateAll(j.remote, plan.mkdirs).tree
  }

  /** The tree `t` is ready for PUT frames. */
  ghost predicate Ready(j: Job, t: Tree)
  {
    Good(j, t, {}) && DirsMade(j, t) && Safe(j, t)
  }

  lemma MkdirReady(j: Job, side: Side, w: World)
    requires Honest(j, side, w)
    ensures var plan := ThePlan(j, side, w);
            CreateAll(j.remote, plan.mkdirs).outcome.Done? && Ready(j, AfterMkdir(j, plan))
  {
    MkdirPhase(j, side.listing, w.walk(j.remote, j.ex), side.delete);
    GoodIsSafe(j, AfterMkdir(j, ThePlan(j, side, w)), {});
  }

  lemma HonestIs(j: Job, side: Side, w: World)
    requires Honest(j, side, w)
    ensures Setup(j) && side.ex == j.ex && w.f == j.f
  {}

  /** HELLO, SYNC_REQ and LIST. */
  lemma ListPhase(j: Job, side: Side, w: World, c: ClientState)
    requires Honest(j, side, w)
    requires c == SendThen(side, Requests(ThePlan(j, side, w)), ThenCollect(ThePlan(j, side, w), MapOf(w.walk(j.remote, j.ex))))
    requires AllWell(j, c, Serving(j.remote))
    ensures Gets(j, side, w, AwaitHello, Greeting(j.remote), 3, c, Serving(j.remote))
  {
    hide Honest, Safe, PlanOf, Requests, Gets, StartPuts, Wanted;
    HonestIs(j, side, w);
    SafeStart(j);
    var t, req := j.remote, Sending([SyncReq(side.ex)], ThenList);
    AgentSends(j, side, w, AwaitHello, Greeting(t), req, Idle(t));
    ClientSends(j, side, w, req, Idle(t), AwaitList, ToList(t, side.ex));
    AgentSends(j, side, w, AwaitList, ToList(t, side.ex), c, Serving(t));
    Then(j, side, w, AwaitHello, Greeting(t), 1, req, Idle(t), 1, AwaitList, ToList(t, side.ex));
    Then(j, side, w, AwaitHello, Greeting(t), 2, AwaitList, ToList(t, side.ex), 1, c, Serving(t));
  }

  /** Where the agent is while it answers from the `i`-th requested path on. */
  function Answering(t: Tree, wanted: seq<Path>, i: nat): AgentState
    requires i <= |wanted|
  {
    if i == |wanted| then Serving(t) else Signing(t, wanted[i..])
  }

  lemma RequestSigs(j: Job, side: Side, w: World, plan: Plan, remote: Entries, t: Tree, c: ClientState)
    requires c == After(side, ThenCollect(plan, remote)) && AllWell(j, c, Answering(t, Wanted(plan), 0))
    ensures var q := if Wanted(plan) == [] then [] else [SigReq(Wanted(plan))];
            Gets(j, side, w, SendThen(side, q, ThenCollect(plan, remote)), Serving(t),
                 if Wanted(plan) == [] then 0 else 1, c, Answering(t, Wanted(plan), 0))
  {
    hide Safe, Wanted, StartPuts, Gets, CrashSafe;
    if Wanted(plan) == [] {
      Stay(j, side, w, c, Serving(t));
    } else {
      var q := [SigReq(Wanted(plan))];
      assert q[1..] == [] && Wanted(plan)[0..] == Wanted(plan);
      ClientSends(j, side, w, Sending(q, ThenCollect(plan, remote)), Serving(t), c, Signing(t, Wanted(plan)));
    }
  }

  /** MKDIR and SIG_REQ, each only if there is something to ask for. */
  lemma RequestPhase(j: Job, side: Side, w: World, plan: Plan, remote: Entries, c: ClientState) returns (n: nat)
    requires Honest(j, side, w) && plan == ThePlan(j, side, w)
    requires c == After(side, ThenCollect(plan, remote))
    requires AllWell(j, c, Answering(AfterMkdir(j, plan), Wanted(plan), 0))
    ensures Gets(j, side, w, SendThen(side, Requests(plan), ThenCollect(plan, remote)), Serving(j.remote),
                 n, c, Answering(AfterMkdir(j, plan), Wanted(plan), 0))
  {
    hide Safe, Honest, PlanOf, ThePlan, StartPuts, Wanted, Gets, Good, DirsMade, After, Setup;
    HonestIs(j, side, w);
    MkdirReady(j, side, w);
    SafeStart(j);
    var next, t := ThenCollect(plan, remote), AfterMkdir(j, plan);
    var q := if Wanted(plan) == [] then [] else [SigReq(Wanted(plan))];
    RequestSigs(j, side, w, plan, remote, t, c);
    n := if Wanted(plan) == [] then 0 else 1;
    if plan.mkdirs == [] {
      assert Requests(plan) == q && t == j.remote;
    } else {
      GetsIsWell(j, side, w, SendThen(side, q, next), Serving(t), n, c, Answering(t, Wanted(plan), 0));
      MkdirSend(j, side, w, plan, q, next);
      var c0, c1 := Sending(Requests(plan), next), SendThen(side, q, next);
      Then(j, side, w, c0, Serving(j.remote), 1, c1, Serving(t), n, c, Answering(t, Wanted(plan), 0));
      n := n + 1;
    }
  }

  lemma MkdirFrameSafe(j: Job, side: Side, w: World, plan: Plan)
    requires Honest(j, side, w) && plan == ThePlan(j, side, w)
    ensures FrameSafe(j, j.remote, Mkdir(plan.mkdirs))
  {
    hide CrashSafe, MkdirMoment, PlanOf, CreateAll, CreateDirAll;
    var ps := plan.mkdirs;
    forall i | 0 <= i < |ps| ensures Ours(j, ps[i]) && j.local[ps[i]] == Dir {
      assert ps[i] in ps;
      PlanMkdirs(j, side.listing, w.walk(j.remote, j.ex), side.delete, ps[i]);
    }
    forall mid | MkdirMoment(j.remote, ps, mid) ensures CrashSafe(j, mid, {}) {
      MkdirMomentSafe(j, ps, mid);
    }
  }

  lemma MkdirSend(j: Job, side: Side, w: World, plan: Plan, q: seq<Msg>, next: Next)
    requires Honest(j, side, w) && plan == ThePlan(j, side, w)
    requires Safe(j, j.remote) && CreateAll(j.remote, plan.mkdirs).outcome.Done?
    requires plan.mkdirs != [] && Requests(plan) == [Mkdir(plan.mkdirs)] + q
    requires AllWell(j, SendThen(side, q, next), Serving(AfterMkdir(j, plan)))
    ensures Gets(j, side, w, Sending(Requests(plan), next), Serving(j.remote), 1,
                 SendThen(side, q, next), Serving(AfterMkdir(j, plan)))
  {
    hide Honest, Safe, SendThen, CreateAll, Gets, ThePlan, MkdirMoment, CrashSafe;
    MkdirFrameSafe(j, side, w, plan);
    assert Requests(plan)[1..] == q && Requests(plan)[0] == Mkdir(plan.mkdirs);
    ClientSends(j, side, w, Sending(Requests(plan), next), Serving(j.remote), SendThen(side, q, next),
                Serving(AfterMkdir(j, plan)));
  }

  /** What has been collected after `i` SIG frames. */
  ghost predicate CollectOk(j: Job, plan: Plan, i: nat, table: SigTable, changed: seq<Meta>)
    requires i <= |Wanted(plan)|
  {
    && TableOk(j, table)
    && (forall k | 0 <= k < i && k < |plan.sigWanted| :: plan.sigWanted[k] in table)
    && ChangedOk(j, plan.verify, if i < |plan.sigWanted| then 0 else i - |plan.sigWanted|, changed)
  }

  /** Once everything is collected the PUT frames carry exactly what has to be sent. */
  ghost predicate PutsReady(j: Job, puts: seq<Put>)
  {
    && DistinctPuts(puts)
    && (forall i | 0 <= i < |puts| :: Carries(j, puts[i]))
    && (forall p :: p in PutPaths(puts, |puts|) <==> ToSend(j, p))
  }

  lemma PutPathsAre(j: Job, sends: seq<Meta>, puts: seq<Put>)
    requires SendsAll(j, sends) && CarriesAll(j, sends, puts)
    ensures DistinctPuts(puts)
    ensures forall p :: p in PutPaths(puts, |puts|) <==> ToSend(j, p)
  {
    forall p ensures p in PutPaths(puts, |puts|) <==> ToSend(j, p) {
      if p in PutPaths(puts, |puts|) {
        var i :| 0 <= i < |puts| && puts[i].path == p;
        assert sends[i] in sends;
      }
      if ToSend(j, p) {
        var m := MetaOf(p, j.local[p]);
        assert m in sends;
        var i :| 0 <= i < |sends| && sends[i] == m;
        assert puts[i].path == p;
      }
    }
  }

  /** The plan of an honest pair, and the client's map of the remote listing. */
  ghost predicate Planned(j: Job, side: Side, w: World, plan: Plan, remote: Entries)
  {
    Honest(j, side, w) && plan == ThePlan(j, side, w) && remote == MapOf(w.walk(j.remote, j.ex))
  }

  /** The client never breaks off when it comes to sending. */
  lemma StartIsHonest(j: Job, side: Side, w: World, plan: Plan, remote: Entries, table: SigTable, changed: seq<Meta>)
    returns (puts: seq<Put>, files: nat)
    requires Planned(j, side, w, plan, remote)
    requires TableOk(j, table) && TableFull(j, table) && ChangedOk(j, plan.verify, |plan.verify|, changed)
    ensures PutsReady(j, puts)
    ensures StartPuts(side, plan, table, changed) == Sending(PutFrames(puts) + Closing(plan.deletes), ThenDone(files))
    ensures |puts| == |plan.sends| + |changed| && files == |FilesToSend(j)|
  {
    var ls, rs := side.listing, w.walk(j.remote, j.ex);
    PlanSends(j, ls, rs, side.delete);
    PlanVerify(j, ls, rs, side.delete);
    assert plan.verify[..|plan.verify|] == plan.verify;
    SendsTogether(j, plan.sends, changed);
    var sends := plan.sends + changed;
    forall i | 0 <= i < |sends| ensures IsSend(j, sends[i]) {
      assert sends[i] in sends;
    }
    PutsHonest(j, sends, table);
    puts := PutsFor(j.f, j.local, sends, table).0;
    files := CountFiles(sends);
    CountIs(j, sends);
    PutPathsAre(j, sends, puts);
  }

  /** An honest basis for a delta goes into the table. */
  lemma BasisStep(j: Job, side: Side, w: World, plan: Plan, remote: Entries, t: Tree, i: nat, table: SigTable, changed: seq<Meta>)
    returns (table1: SigTable)
    requires Planned(j, side, w, plan, remote) && Good(j, t, {})
    requires i < |plan.sigWanted| && CollectOk(j, plan, i, table, changed)
    ensures CollectOk(j, plan, i + 1, table1, changed)
    ensures Collected(side, Collecting(plan, remote, i, table, changed), AgentSig(j.f, t, Wanted(plan)[i])) ==
            Resume(side, plan, remote, i + 1, table1, changed)
  {
    hide Planned, Honest, Setup, Good, TableOk, AgentSig, GatherOne, VerifyOne, Resume, ChangedOk, SigSizeOk, ParseSig;
    PlannedIsSetUp(j, side, w, plan, remote);
    var p := BasisIsThere(j, side, w, plan, remote, i);
    BaseIsSafe(j, p);
    BaseIsThere(j, t, p);
    GatherHonest(j, t, p, remote, table);
    table1 := GatherOne(table, p, AgentSig(j.f, t, p), remote).value;
  }

  lemma BaseIsSafe(j: Job, p: Path)
    requires Setup(j) && HasBase(j, p)
    ensures BothFiles(j, p) && NoCollision(j, p)
  {}

  lemma BasisIsThere(j: Job, side: Side, w: World, plan: Plan, remote: Entries, i: nat) returns (p: Path)
    requires Planned(j, side, w, plan, remote) && i < |plan.sigWanted|
    ensures p == plan.sigWanted[i] == Wanted(plan)[i]
    ensures HasBase(j, p) && p in remote && remote[p] == MetaOf(p, j.remote[p])
  {
    p := plan.sigWanted[i];
    assert p in plan.sigWanted;
    PlanSigWanted(j, side.listing, w.walk(j.remote, j.ex), side.delete, p);
  }

  lemma CheckIsThere(j: Job, side: Side, w: World, plan: Plan, remote: Entries, k: nat) returns (m: Meta)
    requires Planned(j, side, w, plan, remote) && k < |plan.verify|
    ensures m == plan.verify[k] && m.path == Wanted(plan)[|plan.sigWanted| + k]
    ensures DistinctPaths(plan.verify) && Suspect(j, m.path) && m == MetaOf(m.path, j.local[m.path])
  {
    m := plan.verify[k];
    assert m in plan.verify;
    PlanVerify(j, side.listing, w.walk(j.remote, j.ex), side.delete);
  }

  lemma PlannedIsSetUp(j: Job, side: Side, w: World, plan: Plan, remote: Entries)
    requires Planned(j, side, w, plan, remote)
    ensures Setup(j) && Lists(side.listing, j.local, j.ex) && w.f == side.f == j.f && side.local == j.local && w.now == j.now
  {}

  /** A check of a file that looks unchanged finds out whether it is. */
  lemma CheckStep(j: Job, side: Side, w: World, plan: Plan, remote: Entries, t: Tree, i: nat, table: SigTable, changed: seq<Meta>)
    returns (changed1: seq<Meta>)
    requires Planned(j, side, w, plan, remote) && Good(j, t, {})
    requires |plan.sigWanted| <= i < |Wanted(plan)| && CollectOk(j, plan, i, table, changed)
    ensures CollectOk(j, plan, i + 1, table, changed1)
    ensures Collected(side, Collecting(plan, remote, i, table, changed), AgentSig(j.f, t, Wanted(plan)[i])) ==
            Resume(side, plan, remote, i + 1, table, changed1)
  {
    hide Planned, Honest, Setup, Good, TableOk, AgentSig, GatherOne, VerifyOne, Resume, ChangedOk, Altered, Suspect,
      SigSizeOk, ParseSig, Signature;
    PlannedIsSetUp(j, side, w, plan, remote);
    var k := i - |plan.sigWanted|;
    var m := CheckIsThere(j, side, w, plan, remote, k);
    VerifyHonest(j, t, m);
    ChangedStep(j, plan.verify, k, changed);
    changed1 := changed + if Altered(j, m.path) then [m] else [];
  }

  /** What is signed is small enough for a frame. */
  lemma WantedFits(j: Job, side: Side, w: World, plan: Plan, remote: Entries, t: Tree, i: nat)
    requires Planned(j, side, w, plan, remote) && Good(j, t, {}) && i < |Wanted(plan)|
    ensures |AgentSig(j.f, t, Wanted(plan)[i]).data| <= MAX_DATA
  {
    hide Planned, Honest, AgentSig, Shaped, LinksAccepted, RootReady, Trusted, FilesSendable, MetaOf, SameEntry, Alike;
    PlannedIsSetUp(j, side, w, plan, remote);
    var p := Wanted(plan)[i];
    if i < |plan.sigWanted| {
      var _ := BasisIsThere(j, side, w, plan, remote, i);
      assert NoCollision(j, p);
    } else {
      var _ := CheckIsThere(j, side, w, plan, remote, i - |plan.sigWanted|);
      SuspectIsSmall(j, p);
    }
    assert t[p] == j.remote[p];
    WireSizes.SigFits(j.f, t, p);
  }

  lemma SuspectIsSmall(j: Job, p: Path)
    requires Suspect(j, p)
    ensures p in j.remote && j.remote[p].File? && |j.remote[p].content| <= VERIFY_MAX
  {}

  /** Collecting goes on, or the files go out. */
  lemma ResumeIsWell(j: Job, side: Side, w: World, plan: Plan, remote: Entries, t: Tree, i: nat, table: SigTable, changed: seq<Meta>)
    requires Planned(j, side, w, plan, remote) && Ready(j, t)
    requires i <= |Wanted(plan)| && CollectOk(j, plan, i, table, changed)
    ensures AllWell(j, Resume(side, plan, remote, i, table, changed), Answering(t, Wanted(plan), i))
  {
    hide Planned, CollectOk, Good, DirsMade, Safe, CrashSafe, Wanted, PutsReady, DeletesOk, StartPuts;
    if i < |Wanted(plan)| {
      ReadyIs(j, t);
      WantedFits(j, side, w, plan, remote, t, i);
      assert Wanted(plan)[i..][0] == Wanted(plan)[i];
    } else {
      CollectedAll(j, side, w, plan, remote, table, changed);
      var puts, files := StartIsHonest(j, side, w, plan, remote, table, changed);
      PlannedIsSetUp(j, side, w, plan, remote);
      DeletesOfPlan(j, side, w, plan, remote);
      assert QueueFrom(puts, 0, Closing(plan.deletes)) == PutFrames(puts) + Closing(plan.deletes);
      assert puts[..0] == [] && AfterPuts(j, t, puts, 0) == t;
      QueueIsWell(j, t, puts, 0, plan.deletes, ThenDone(files));
    }
  }

  /** One SIG frame per requested path, in the order of the request. */
  lemma CollectStep(j: Job, side: Side, w: World, plan: Plan, remote: Entries, t: Tree, i: nat, table: SigTable, changed: seq<Meta>)
    returns (table1: SigTable, changed1: seq<Meta>)
    requires Planned(j, side, w, plan, remote) && Ready(j, t)
    requires i < |Wanted(plan)| && CollectOk(j, plan, i, table, changed)
    requires AllWell(j, Collecting(plan, remote, i, table, changed), Answering(t, Wanted(plan), i))
    ensures CollectOk(j, plan, i + 1, table1, changed1)
    ensures Gets(j, side, w, Collecting(plan, remote, i, table, changed), Answering(t, Wanted(plan), i), 1,
                 Resume(side, plan, remote, i + 1, table1, changed1), Answering(t, Wanted(plan), i + 1))
  {
    hide Planned, Ready, Safe, Good, CollectOk, Collected, Resume, AgentSig, Gets, PathsOf;
    ReadyIs(j, t);
    if i < |plan.sigWanted| {
      table1 := BasisStep(j, side, w, plan, remote, t, i, table, changed);
      changed1 := changed;
    } else {
      changed1 := CheckStep(j, side, w, plan, remote, t, i, table, changed);
      table1 := table;
    }
    CollectOne(j, side, w, plan, remote, t, i, table, changed, table1, changed1);
  }

  lemma CollectOne(j: Job, side: Side, w: World, plan: Plan, remote: Entries, t: Tree, i: nat,
                   table: SigTable, changed: seq<Meta>, table1: SigTable, changed1: seq<Meta>)
    requires Planned(j, side, w, plan, remote) && Ready(j, t)
    requires i < |Wanted(plan)| && CollectOk(j, plan, i + 1, table1, changed1)
    requires AllWell(j, Collecting(plan, remote, i, table, changed), Answering(t, Wanted(plan), i))
    requires Collected(side, Collecting(plan, remote, i, table, changed), AgentSig(j.f, t, Wanted(plan)[i])) ==
             Resume(side, plan, remote, i + 1, table1, changed1)
    ensures Gets(j, side, w, Collecting(plan, remote, i, table, changed), Answering(t, Wanted(plan), i), 1,
                 Resume(side, plan, remote, i + 1, table1, changed1), Answering(t, Wanted(plan), i + 1))
  {
    hide Planned, Ready, Safe, CollectOk, Collected, Resume, AgentSig, Gets, Wanted, CrashSafe, AgentGot, AllWell, Good,
      DirsMade, StartPuts;
    ReadyIs(j, t);
    ResumeIsWell(j, side, w, plan, remote, t, i + 1, table1, changed1);
    PlannedIsSetUp(j, side, w, plan, remote);
    var wanted := Wanted(plan);
    assert wanted[i..][0] == wanted[i] && wanted[i..][1..] == wanted[i + 1..];
    AgentSends(j, side, w, Collecting(plan, remote, i, table, changed), Signing(t, wanted[i..]),
               Resume(side, plan, remote, i + 1, table1, changed1), Answering(t, wanted, i + 1));
  }

  lemma {:induction false} CollectPhase(j: Job, side: Side, w: World, plan: Plan, remote: Entries, t: Tree,
                                        i: nat, table: SigTable, changed: seq<Meta>)
    returns (table1: SigTable, changed1: seq<Meta>)
    requires Planned(j, side, w, plan, remote) && Ready(j, t)
    requires i <= |Wanted(plan)| && CollectOk(j, plan, i, table, changed)
    ensures CollectOk(j, plan, |Wanted(plan)|, table1, changed1)
    ensures Gets(j, side, w, Resume(side, plan, remote, i, table, changed), Answering(t, Wanted(plan), i),
                 |Wanted(plan)| - i, StartPuts(side, plan, table1, changed1), Serving(t))
    decreases |Wanted(plan)| - i
  {
    hide Planned, Ready, AllWell, CollectOk, StartPuts, Wanted, Gets;
    ResumeIsWell(j, side, w, plan, remote, t, i, table, changed);
    if i == |Wanted(plan)| {
      table1, changed1 := table, changed;
      Stay(j, side, w, StartPuts(side, plan, table, changed), Serving(t));
    } else {
      var table2, changed2 := CollectStep(j, side, w, plan, remote, t, i, table, changed);
      table1, changed1 := CollectPhase(j, side, w, plan, remote, t, i + 1, table2, changed2);
      Then(j, side, w, Collecting(plan, remote, i, table, changed), Answering(t, Wanted(plan), i), 1,
           Resume(side, plan, remote, i + 1, table2, changed2), Answering(t, Wanted(plan), i + 1),
           |Wanted(plan)| - i - 1, StartPuts(side, plan, table1, changed1), Serving(t));
    }
  }

  // ----- sending the files -----

  /** The remote tree after `k` PUT frames. */
  ghost function AfterPuts(j: Job, t: Tree, puts: seq<Put>, k: nat): Tree
    requires k <= |puts|
  {
    ApplyPuts(t, puts[..k], j.now).tree
  }

  lemma PutsAreSafe(j: Job, t: Tree, puts: seq<Put>, k: nat)
    requires Setup(j) && Ready(j, t) && PutsReady(j, puts) && k <= |puts|
    ensures ApplyPuts(t, puts[..k], j.now).outcome.Done?
    ensures var next := AfterPuts(j, t, puts, k);
            Good(j, next, PutPaths(puts, k)) && Safe(j, next)
  {
    PutsOk(j, t, puts, k);
    GoodIsSafe(j, AfterPuts(j, t, puts, k), PutPaths(puts, k));
  }

  function QueueFrom(puts: seq<Put>, k: nat, tail: seq<Msg>): seq<Msg>
    requires k <= |puts|
  {
    PutFrames(puts)[k..] + tail
  }

  /** A DELETE list that names exactly the extra entries, or nothing at all. */
  ghost predicate DeletesOk(j: Job, ds: seq<Path>)
  {
    ds == [] || (DeepestFirst(ds) && forall p :: p in ds <==> Extra(j, p))
  }

  lemma CarriedFits(j: Job, put: Put)
    requires Carries(j, put)
    ensures |put.data| <= MAX_DATA && put.path != []
  {}

  lemma PutFrameSafe(j: Job, t: Tree, puts: seq<Put>, k: nat)
    requires Setup(j) && Ready(j, t) && PutsReady(j, puts) && k < |puts|
    ensures FrameSafe(j, AfterPuts(j, t, puts, k), PutFrame(puts[k])) && |puts[k].data| <= MAX_DATA
    ensures Carries(j, puts[k])
  {
    hide Setup, Good, DirsMade, Safe, CrashSafe, PutMoment, FreshTemp, ApplyPuts, ToSend, Carries;
    CarriedFits(j, puts[k]);
    PutsOk(j, t, puts, k);
    var now := AfterPuts(j, t, puts, k);
    forall tmp, mid | FreshTemp(j, now, puts[k].path, tmp) && PutMoment(now, puts[k], j.now, tmp, mid)
      ensures CrashSafe(j, mid, {tmp})
    {
      PutMomentSafe(j, now, PutPaths(puts, k), puts[k], tmp, mid);
    }
  }

  /** With all files sent, everything local is in place. */
  lemma AllPut(j: Job, t: Tree, puts: seq<Put>)
    requires Setup(j) && Ready(j, t) && PutsReady(j, puts)
    ensures var put := AfterPuts(j, t, puts, |puts|);
            && Good(j, put, PutPaths(puts, |puts|)) && Converged(j, put, false) && AllInPlace(j, put)
            && (InThePast(j) ==> UpToDate(j, put))
  {
    hide Setup, Good, DirsMade, Safe, ApplyPuts, ToSend, Carries, Converged, AllInPlace, InThePast, UpToDate;
    PutsOk(j, t, puts, |puts|);
    assert puts[..|puts|] == puts;
    PutPhase(j, AfterPuts(j, t, puts, |puts|), PutPaths(puts, |puts|));
    ConvergedIsInPlace(j, AfterPuts(j, t, puts, |puts|), false);
    if InThePast(j) {
      PutsUpToDate(j, AfterPuts(j, t, puts, |puts|), PutPaths(puts, |puts|));
    }
  }

  lemma ClosingFrameSafe(j: Job, t: Tree, puts: seq<Put>, ds: seq<Path>)
    requires Setup(j) && Ready(j, t) && PutsReady(j, puts) && DeletesOk(j, ds)
    ensures FrameSafe(j, AfterPuts(j, t, puts, |puts|), Closing(ds)[0])
  {
    hide Setup, Ready, PutsReady, Good, CrashSafe, DeleteMoment, Converged, AllInPlace, ApplyPuts, Extra, DeepestFirst;
    AllPut(j, t, puts);
    var put := AfterPuts(j, t, puts, |puts|);
    if ds != [] {
      forall mid | DeleteMoment(put, ds, mid) ensures CrashSafe(j, mid, {}) {
        DeleteMomentSafe(j, put, PutPaths(puts, |puts|), ds, mid);
      }
    }
  }

  /** Whatever has gone out, the rest of the queue does no harm. */
  lemma QueueIsWell(j: Job, t: Tree, puts: seq<Put>, k: nat, ds: seq<Path>, next: Next)
    requires Setup(j) && Ready(j, t) && PutsReady(j, puts) && k <= |puts| && DeletesOk(j, ds)
    ensures AllWell(j, Sending(QueueFrom(puts, k, Closing(ds)), next), Serving(AfterPuts(j, t, puts, k)))
  {
    hide Setup, Ready, PutsReady, Safe, FrameSafe, ApplyPuts, DeletesOk, Good, PutPaths;
    PutsAreSafe(j, t, puts, k);
    var q := QueueFrom(puts, k, Closing(ds));
    if k < |puts| {
      PutFrameSafe(j, t, puts, k);
      assert q[0] == PutFrame(puts[k]);
    } else {
      ClosingFrameSafe(j, t, puts, ds);
      assert q[0] == Closing(ds)[0];
    }
  }

  lemma PutSend(j: Job, side: Side, w: World, t: Tree, puts: seq<Put>, k: nat, ds: seq<Path>, next: Next)
    requires Setup(j) && Ready(j, t) && PutsReady(j, puts) && w.now == j.now && k < |puts| && DeletesOk(j, ds)
    ensures Gets(j, side, w, Sending(QueueFrom(puts, k, Closing(ds)), next), Serving(AfterPuts(j, t, puts, k)), 1,
                 Sending(QueueFrom(puts, k + 1, Closing(ds)), next), Serving(AfterPuts(j, t, puts, k + 1)))
  {
    hide Setup, Ready, PutsReady, Safe, Good, ApplyPut, ApplyPuts, Gets, PutPaths, AllWell, DeletesOk;
    PutsAreSafe(j, t, puts, k);
    PutsAreSafe(j, t, puts, k + 1);
    QueueIsWell(j, t, puts, k, ds, next);
    QueueIsWell(j, t, puts, k + 1, ds, next);
    ApplyPutsStep(t, puts, k, j.now);
    var q := QueueFrom(puts, k, Closing(ds));
    assert q[0] == PutFrame(puts[k]) && q[1..] == QueueFrom(puts, k + 1, Closing(ds));
    ClientSends(j, side, w, Sending(q, next), Serving(AfterPuts(j, t, puts, k)),
                Sending(QueueFrom(puts, k + 1, Closing(ds)), next), Serving(AfterPuts(j, t, puts, k + 1)));
  }

  lemma {:induction false} PutRun(j: Job, side: Side, w: World, t: Tree, puts: seq<Put>, k: nat, ds: seq<Path>, next: Next)
    requires Setup(j) && Ready(j, t) && PutsReady(j, puts) && w.now == j.now && k <= |puts| && DeletesOk(j, ds)
    ensures Gets(j, side, w, Sending(QueueFrom(puts, k, Closing(ds)), next), Serving(AfterPuts(j, t, puts, k)), |puts| - k,
                 Sending(Closing(ds), next), Serving(AfterPuts(j, t, puts, |puts|)))
    decreases |puts| - k
  {
    hide Setup, Ready, PutsReady, Gets, ApplyPuts, AllWell, Closing, DeletesOk;
    var q := QueueFrom(puts, k, Closing(ds));
    if k == |puts| {
      assert q == Closing(ds);
      QueueIsWell(j, t, puts, k, ds, next);
      Stay(j, side, w, Sending(q, next), Serving(AfterPuts(j, t, puts, k)));
    } else {
      PutSend(j, side, w, t, puts, k, ds, next);
      PutRun(j, side, w, t, puts, k + 1, ds, next);
      Then(j, side, w, Sending(q, next), Serving(AfterPuts(j, t, puts, k)), 1,
           Sending(QueueFrom(puts, k + 1, Closing(ds)), next), Serving(AfterPuts(j, t, puts, k + 1)), |puts| - k - 1,
           Sending(Closing(ds), next), Serving(AfterPuts(j, t, puts, |puts|)));
    }
  }

  /** PLAN_DONE, DONE and QUIT. */
  lemma ByePhase(j: Job, side: Side, w: World, t: Tree, files: nat)
    requires Safe(j, t)
    ensures Gets(j, side, w, Sending([PlanDone], ThenDone(files)), Serving(t), 3, Finished(files), Closed(t))
  {
    hide Safe, Gets, CrashSafe;
    var quit := Sending([Quit], ThenFinish(files));
    ClientSends(j, side, w, Sending([PlanDone], ThenDone(files)), Serving(t), AwaitDone(files), Finishing(t));
    AgentSends(j, side, w, AwaitDone(files), Finishing(t), quit, Idle(t));
    ClientSends(j, side, w, quit, Idle(t), Finished(files), Closed(t));
    Then(j, side, w, AwaitDone(files), Finishing(t), 1, quit, Idle(t), 1, Finished(files), Closed(t));
    Then(j, side, w, Sending([PlanDone], ThenDone(files)), Serving(t), 1, AwaitDone(files), Finishing(t), 2,
         Finished(files), Closed(t));
  }

  /** DELETE, if there is something to delete, and the end of the conversation. */
  lemma ClosePhase(j: Job, side: Side, w: World, t: Tree, ds: seq<Path>, files: nat) returns (n: nat)
    requires AllWell(j, Sending(Closing(ds), ThenDone(files)), Serving(t)) && Safe(j, DeleteAll(t, ds))
    ensures Gets(j, side, w, Sending(Closing(ds), ThenDone(files)), Serving(t), n, Finished(files), Closed(DeleteAll(t, ds)))
  {
    hide Safe, Gets, DeleteAll, CrashSafe, DeleteMoment;
    ByePhase(j, side, w, DeleteAll(t, ds), files);
    if ds == [] {
      NothingToDelete(t, ds);
      assert Closing(ds) == [PlanDone];
      n := 3;
    } else {
      n := 4;
      var c1 := Sending([PlanDone], ThenDone(files));
      assert Closing(ds)[0] == Delete(ds) && Closing(ds)[1..] == [PlanDone];
      ClientSends(j, side, w, Sending(Closing(ds), ThenDone(files)), Serving(t), c1, Serving(DeleteAll(t, ds)));
      Then(j, side, w, Sending(Closing(ds), ThenDone(files)), Serving(t), 1, c1, Serving(DeleteAll(t, ds)), 3,
           Finished(files), Closed(DeleteAll(t, ds)));
    }
  }

  lemma NothingToDelete(t: Tree, ds: seq<Path>)
    requires ds == []
    ensures DeleteAll(t, ds) == t
  {}

  /** With the PUT frames through, the deletions are safe and complete the work. */
  lemma EndsConverged(j: Job, side: Side, w: World, plan: Plan, remote: Entries, t: Tree, puts: seq<Put>)
    requires Planned(j, side, w, plan, remote) && Ready(j, t) && PutsReady(j, puts)
    ensures var put := AfterPuts(j, t, puts, |puts|);
            && Safe(j, put) && Safe(j, DeleteAll(put, plan.deletes))
            && Converged(j, DeleteAll(put, plan.deletes), side.delete)
            && (InThePast(j) ==> UpToDate(j, DeleteAll(put, plan.deletes)))
  {
    hide Planned, Ready, PutsReady, Safe, Good, Converged, Setup, ApplyPuts, Extra, DeepestFirst, AllInPlace, UpToDate, InThePast;
    PlannedIsSetUp(j, side, w, plan, remote);
    PutsAreSafe(j, t, puts, |puts|);
    AllPut(j, t, puts);
    DeletesOfPlan(j, side, w, plan, remote);
    var put, done := AfterPuts(j, t, puts, |puts|), PutPaths(puts, |puts|);
    if side.delete {
      assert plan.deletes[..|plan.deletes|] == plan.deletes;
      DeletingIsSafe(j, put, done, plan.deletes, |plan.deletes|);
      DeletePhase(j, put, done, plan.deletes);
      if InThePast(j) {
        DeletesKeepUpToDate(j, put, done, plan.deletes);
      }
    } else {
      NothingToDelete(put, plan.deletes);
    }
  }

  lemma DeletesOfPlan(j: Job, side: Side, w: World, plan: Plan, remote: Entries)
    requires Planned(j, side, w, plan, remote)
    ensures DeletesOk(j, plan.deletes)
    ensures if side.delete then DeepestFirst(plan.deletes) && forall p :: p in plan.deletes <==> Extra(j, p)
            else plan.deletes == []
  {
    if side.delete {
      PlanDeletes(j, side.listing, w.walk(j.remote, j.ex));
    }
  }

  // ----- the whole conversation -----

  ghost predicate Succeeds(j: Job, side: Side, w: World, n: nat, files: nat, t: Tree)
  {
    Completes(Client(side), Agent(w), Inv(j), AwaitHello, Greeting(j.remote), n, Finished(files), Closed(t))
  }

  /** What is collected when nothing has been. */
  lemma NothingCollected(j: Job, side: Side, w: World, plan: Plan, remote: Entries)
    requires Planned(j, side, w, plan, remote)
    ensures CollectOk(j, plan, 0, map[], [])
    ensures After(side, ThenCollect(plan, remote)) == Resume(side, plan, remote, 0, map[], [])
  {
    assert plan.verify[..0] == [];
  }

  /** An honest sync reaches DONE and the remote tree converges to the local one. */
  lemma SyncSucceeds(j: Job, side: Side, w: World) returns (n: nat, files: nat, t: Tree)
    requires Honest(j, side, w)
    ensures Succeeds(j, side, w, n, files, t) && SyncedTo(j, side, w, files, t)
  {
    hide Honest, ThePlan, Setup, Ready, Safe, Good, PutsReady, CollectOk, Gets, Converged, After, Resume, StartPuts,
      SendThen, Requests, Wanted, DeleteAll, ApplyPuts, CreateAll, MapOf, Closing, AllWell, InThePast, UpToDate, NothingNew, FilesToSend;
    var plan, remote := ThePlan(j, side, w), MapOf(w.walk(j.remote, j.ex));
    var t1 := AfterMkdir(j, plan);
    PlannedFromHonest(j, side, w);
    PlannedIsSetUp(j, side, w, plan, remote);
    MkdirReady(j, side, w);
    ReadyIs(j, t1);
    NothingCollected(j, side, w, plan, remote);
    ResumeIsWell(j, side, w, plan, remote, t1, 0, map[], []);
    var c1 := After(side, ThenCollect(plan, remote));
    var m := RequestPhase(j, side, w, plan, remote, c1);
    var c0 := SendThen(side, Requests(plan), ThenCollect(plan, remote));
    GetsIsWell(j, side, w, c0, Serving(j.remote), m, c1, Answering(t1, Wanted(plan), 0));
    ListPhase(j, side, w, c0);
    Then(j, side, w, AwaitHello, Greeting(j.remote), 3, c0, Serving(j.remote), m, c1, Answering(t1, Wanted(plan), 0));
    var table, changed := CollectPhase(j, side, w, plan, remote, t1, 0, map[], []);
    CollectedAll(j, side, w, plan, remote, table, changed);
    var puts, files' := StartIsHonest(j, side, w, plan, remote, table, changed);
    files := files';
    var c2 := StartPuts(side, plan, table, changed);
    Then(j, side, w, AwaitHello, Greeting(j.remote), 3 + m, c1, Answering(t1, Wanted(plan), 0), |Wanted(plan)|, c2, Serving(t1));
    n := 3 + m + |Wanted(plan)|;
    var more := FinishPhase(j, side, w, plan, remote, t1, puts, files, c2);
    EndsConverged(j, side, w, plan, remote, t1, puts);
    t := DeleteAll(AfterPuts(j, t1, puts, |puts|), plan.deletes);
    Then(j, side, w, AwaitHello, Greeting(j.remote), n, c2, Serving(t1), more, Finished(files), Closed(t));
    n := n + more;
    GetsSucceeds(j, side, w, n, files, t);
    if NothingNew(j, side, w) {
      NoPuts(j, side, w, puts);
    }
  }

  /** What a sync comes to: the file count the client reports and the remote tree. */
  ghost predicate SyncedTo(j: Job, side: Side, w: World, files: nat, t: Tree)
  {
    && Converged(j, t, side.delete) && files == |FilesToSend(j)|
    && (InThePast(j) ==> UpToDate(j, t))
    && (NothingNew(j, side, w) ==> t == DeleteAll(j.remote, ThePlan(j, side, w).deletes))
  }

  /** The remote tree lacks nothing that the local one has. */
  ghost predicate NothingNew(j: Job, side: Side, w: World)
  {
    ThePlan(j, side, w).mkdirs == [] && forall p :: !ToSend(j, p)
  }

  lemma NothingToCount(j: Job, side: Side, w: World)
    requires NothingNew(j, side, w)
    ensures FilesToSend(j) == {}
  {}

  lemma NoPuts(j: Job, side: Side, w: World, puts: seq<Put>)
    requires NothingNew(j, side, w) && PutsReady(j, puts)
    ensures puts == [] && AfterPuts(j, AfterMkdir(j, ThePlan(j, side, w)), puts, |puts|) == j.remote
  {
    FirstPutIsToSend(j, puts);
  }

  lemma FirstPutIsToSend(j: Job, puts: seq<Put>)
    requires PutsReady(j, puts)
    ensures puts != [] ==> ToSend(j, puts[0].path)
  {
    if puts != [] {
      assert puts[0].path in PutPaths(puts, |puts|);
    }
  }

  lemma PlannedFromHonest(j: Job, side: Side, w: World)
    requires Honest(j, side, w)
    ensures Planned(j, side, w, ThePlan(j, side, w), MapOf(w.walk(j.remote, j.ex)))
  {}

  lemma ReadyIs(j: Job, t: Tree)
    requires Ready(j, t)
    ensures Good(j, t, {}) && Safe(j, t)
  {}

  lemma CollectedAll(j: Job, side: Side, w: World, plan: Plan, remote: Entries, table: SigTable, changed: seq<Meta>)
    requires Planned(j, side, w, plan, remote) && CollectOk(j, plan, |Wanted(plan)|, table, changed)
    ensures TableOk(j, table) && TableFull(j, table) && ChangedOk(j, plan.verify, |plan.verify|, changed)
  {
    hide Honest, PlanOf, TableOk, ChangedOk, HasBase, MetaOf;
    forall p | HasBase(j, p) ensures p in table {
      WantedHasBases(j, side, w, plan, remote, p);
      var k :| 0 <= k < |plan.sigWanted| && plan.sigWanted[k] == p;
    }
  }

  lemma WantedHasBases(j: Job, side: Side, w: World, plan: Plan, remote: Entries, p: Path)
    requires Planned(j, side, w, plan, remote) && HasBase(j, p)
    ensures p in plan.sigWanted
  {
    PlanSigWanted(j, side.listing, w.walk(j.remote, j.ex), side.delete, p);
  }

  lemma GetsIsWell(j: Job, side: Side, w: World, c: ClientState, a: AgentState, n: nat, c1: ClientState, a1: AgentState)
    requires Gets(j, side, w, c, a, n, c1, a1)
    ensures AllWell(j, c, a)
  {
    assert Inv(j)(c, a);
  }

  lemma {:induction false} GetsEndsWell(j: Job, side: Side, w: World, c: ClientState, a: AgentState, n: nat, c1: ClientState, a1: AgentState)
    requires Gets(j, side, w, c, a, n, c1, a1)
    ensures AllWell(j, c1, a1)
  {
    RunsAt(Client(side), Agent(w), Inv(j), c, a, n, c1, a1, n);
    assert Inv(j)(c1, a1);
  }

  lemma GetsSucceeds(j: Job, side: Side, w: World, n: nat, files: nat, t: Tree)
    requires Gets(j, side, w, AwaitHello, Greeting(j.remote), n, Finished(files), Closed(t))
    ensures Succeeds(j, side, w, n, files, t)
  {}

  lemma FinishPhase(j: Job, side: Side, w: World, plan: Plan, remote: Entries, t: Tree, puts: seq<Put>, files: nat, c: ClientState)
    returns (n: nat)
    requires Planned(j, side, w, plan, remote) && Ready(j, t) && PutsReady(j, puts)
    requires c == Sending(PutFrames(puts) + Closing(plan.deletes), ThenDone(files))
    ensures Gets(j, side, w, c, Serving(t), n, Finished(files), Closed(DeleteAll(AfterPuts(j, t, puts, |puts|), plan.deletes)))
  {
    hide Planned, Ready, PutsReady, Gets, Safe, Converged, DeleteAll, Closing, DeletesOk, AllWell;
    DeletesOfPlan(j, side, w, plan, remote);
    PlannedIsSetUp(j, side, w, plan, remote);
    EndsConverged(j, side, w, plan, remote, t, puts);
    var tail, next, put := Closing(plan.deletes), ThenDone(files), AfterPuts(j, t, puts, |puts|);
    assert QueueFrom(puts, 0, tail) == PutFrames(puts) + tail;
    assert puts[..0] == [] && AfterPuts(j, t, puts, 0) == t;
    PutRun(j, side, w, t, puts, 0, plan.deletes, next);
    GetsEndsWell(j, side, w, c, Serving(t), |puts|, Sending(tail, next), Serving(put));
    var m := ClosePhase(j, side, w, put, plan.deletes, files);
    Then(j, side, w, c, Serving(t), |puts|, Sending(tail, next), Serving(put), m, Finished(files),
         Closed(DeleteAll(put, plan.deletes)));
    n := |puts| + m;
  }

  /** Convergence in every interleaving: whatever the room of the channels and the
    * order of the steps, frames never travel both ways at once, no peer fails or
    * meets an unexpected frame, the remote tree is safe at every step and at every
    * moment of the frame the agent takes next, some peer can move until the sync is
    * over, and then the remote tree has converged. */
  lemma SyncInEveryInterleaving(j: Job, side: Side, w: World, room: nat, xs: seq<Config<ClientState, AgentState, Msg>>)
    requires Honest(j, side, w) && room >= 1
    requires Execution(Client(side), Agent(w), room, AwaitHello, Greeting(j.remote), xs)
    ensures var x := xs[|xs| - 1];
            && (x.up == [] || x.down == [])
            && !x.c.Broken? && !x.a.Failing? && Safe(j, x.a.tree)
            && (x.up != [] ==> FrameSafe(j, x.a.tree, x.up[0]))
            && (Stuck(Client(side), Agent(w), room, x) ==>
                  x.c.Finished? && x.a.Closed? && x.up == [] && x.down == [] && SyncedTo(j, side, w, x.c.files, x.a.tree))
  {
    hide Honest, Safe, SyncedTo, FrameSafe;
    var n, files, t := SyncSucceeds(j, side, w);
    var inv := Inv(j);
    EveryInterleaving(Client(side), Agent(w), inv, AwaitHello, Greeting(j.remote), n, Finished(files), Closed(t), room, xs);
    var x := xs[|xs| - 1];
    var a :| inv(x.c, a);
    var c :| inv(c, x.a) && (x.up != [] ==> Client(side).act(c) == Send(x.up[0]));
    assert AllWell(j, x.c, a) && AllWell(j, c, x.a);
  }

  /** No run is longer than two steps a frame, so every run ends. */
  lemma SyncTerminates(j: Job, side: Side, w: World, room: nat) returns (bound: nat)
    requires Honest(j, side, w) && room >= 1
    ensures forall xs :: Execution(Client(side), Agent(w), room, AwaitHello, Greeting(j.remote), xs) ==> |xs| - 1 <= bound
  {
    var n, files, t := SyncSucceeds(j, side, w);
    bound := 2 * n;
    forall xs | Execution(Client(side), Agent(w), room, AwaitHello, Greeting(j.remote), xs) ensures |xs| - 1 <= bound {
      EveryInterleaving(Client(side), Agent(w), Inv(j), AwaitHello, Greeting(j.remote), n, Finished(files), Closed(t), room, xs);
    }
  }
}
