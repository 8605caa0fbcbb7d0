/** Each requested path is answered by one SIG frame, in the order of the request: an
  * account of every path at every step of a run of src/agent.rs. */
module SigOrder {
  import opened Paths
  import opened FileTree
  import opened SyncPlan
  import opened Session
  import opened AgentPeer
  import opened SyncProtocol
  import Convergence

  // ----- accounts -----

  /** The paths of all SIG_REQ frames. */
  function Requested(ms: seq<Msg>): seq<Path>
  {
    if ms == [] then []
    else Requested(ms[..|ms| - 1]) + if ms[|ms| - 1].SigReq? then ms[|ms| - 1].paths else []
  }

  /** The paths of all SIG frames. */
  function Answered(ms: seq<Msg>): seq<Path>
  {
    if ms == [] then []
    else Answered(ms[..|ms| - 1]) + if ms[|ms| - 1].Sig? then [ms[|ms| - 1].reply.path] else []
  }

  /** The first of `y`, in order. */
  predicate Begins(x: seq<Path>, y: seq<Path>)
  {
    x <= y
  }

  lemma OneMore(ms: seq<Msg>, m: Msg)
    ensures Requested(ms + [m]) == Requested(ms) + if m.SigReq? then m.paths else []
    ensures Answered(ms + [m]) == Answered(ms) + if m.Sig? then [m.reply.path] else []
  {
    assert (ms + [m])[..|ms|] == ms;
  }

  lemma {:induction false} Together(x: seq<Msg>, y: seq<Msg>)
    ensures Requested(x + y) == Requested(x) + Requested(y)
    ensures Answered(x + y) == Answered(x) + Answered(y)
  {
    if y == [] {
      assert x + y == x;
    } else {
      var init, m := y[..|y| - 1], y[|y| - 1];
      Together(x, init);
      OneMore(x + init, m);
      OneMore(init, m);
      assert x + y == (x + init) + [m] && y == init + [m];
    }
  }

  // ----- the agent -----

  /** What the agent has still to answer. */
  function Owed(s: AgentState): seq<Path>
  {
    if s.Signing? then s.todo else []
  }

  /** Until it fails, the agent has answered what was requested but for what it owes. */
  ghost predicate AgentBalance(taken: seq<Msg>, given: seq<Msg>, s: AgentState)
  {
    if s.Failing? || ErrorFrame in given then
      (s.Failing? || s.Closed?) && Begins(Answered(given), Requested(taken))
    else Answered(given) + Owed(s) == Requested(taken)
  }

  ghost function AgentKeeps(): (seq<Msg>, seq<Msg>, AgentState) -> bool
  {
    (taken, given, s) => AgentBalance(taken, given, s)
  }

  lemma AgentSendKeeps(w: World, taken: seq<Msg>, given: seq<Msg>, s: AgentState)
    requires AgentBalance(taken, given, s) && AgentAct(w, s).Send?
    ensures AgentBalance(taken, given + [AgentAct(w, s).msg], AgentSent(w, s))
  {
    hide AnswerFor, Requested, Answered;
    OneMore(given, AgentAct(w, s).msg);
    if s.Signing? {
      assert s.todo == [s.todo[0]] + s.todo[1..];
      assert AgentSig(w.f, s.tree, s.todo[0]).path == s.todo[0];
    }
  }

  lemma AgentRecvKeeps(w: World, taken: seq<Msg>, given: seq<Msg>, s: AgentState, m: Msg)
    requires AgentBalance(taken, given, s) && AgentAct(w, s).Recv?
    ensures AgentBalance(taken + [m], given, AgentGot(w, s, m))
  {
    hide AnswerFor, Requested, Answered, CreateAll, ApplyPut, DeleteAll, KeepBasis;
    OneMore(taken, m);
  }

  /** In every trace of the agent: one answer for each requested path, in order. */
  lemma AgentAnswers(w: World, t: Tree, n: nat, taken: seq<Msg>, given: seq<Msg>, s: AgentState)
    requires Traces(Agent(w), Greeting(t), n, taken, given, s)
    ensures AgentBalance(taken, given, s)
  {
    hide AgentBalance, AgentAct, AgentSent, AgentGot;
    var keeps := AgentKeeps();
    forall taken, given, s | keeps(taken, given, s) && Agent(w).act(s).Send?
      ensures keeps(taken, given + [Agent(w).act(s).msg], Agent(w).sent(s))
    {
      AgentSendKeeps(w, taken, given, s);
    }
    forall taken, given, s, m: Msg | keeps(taken, given, s) && Agent(w).act(s).Recv?
      ensures keeps(taken + [m], given, Agent(w).got(s, m))
    {
      AgentRecvKeeps(w, taken, given, s, m);
    }
    NothingYet(t);
    TraceKeeps(Agent(w), keeps, Greeting(t), n, taken, given, s, [], []);
    assert [] + taken == taken && [] + given == given;
  }

  lemma NothingYet(t: Tree)
    ensures AgentBalance([], [], Greeting(t))
  {}

  // ----- the client -----

  /** What the client has to ask for once it has the listing. */
  function Due(side: Side, taken: seq<Msg>): seq<Path>
  {
    if |taken| >= 2 && taken[1].Listing? then Wanted(PlanOf(side.listing, taken[1].entries, side.delete)) else []
  }

  function Queued(s: ClientState): seq<Path>
  {
    if s.Sending? then Requested(s.queue) else []
  }

  /** How many frames have come before each state. */
  predicate InTurn(taken: seq<Msg>, s: ClientState)
  {
    match s
    case AwaitHello => taken == []
    case AwaitList => |taken| == 1
    case Sending(_, ThenList) => |taken| == 1
    case _ => |taken| >= 2 && taken[1].Listing?
  }

  /** Unless it has given up, the client has requested what is due but for its queue. */
  ghost predicate ClientBalance(side: Side, taken: seq<Msg>, given: seq<Msg>, s: ClientState)
  {
    s.Broken? || (InTurn(taken, s) && ErrorFrame !in taken && Requested(given) + Queued(s) == Due(side, taken))
  }

  ghost function ClientKeeps(side: Side): (seq<Msg>, seq<Msg>, ClientState) -> bool
  {
    (taken, given, s) => ClientBalance(side, taken, given, s)
  }

  lemma {:induction false} PutsRequestNothing(puts: seq<Put>)
    ensures Requested(PutFrames(puts)) == []
  {
    if puts != [] {
      var n := |puts| - 1;
      assert PutFrames(puts)[..n] == PutFrames(puts[..n]);
      PutsRequestNothing(puts[..n]);
    }
  }

  lemma StartRequestsNothing(side: Side, plan: Plan, table: SigTable, changed: seq<Meta>)
    ensures Queued(StartPuts(side, plan, table, changed)) == []
    ensures InTurn([Hello, Listing([])], StartPuts(side, plan, table, changed))
  {
    hide PutsFor;
    var puts := PutsFor(side.f, side.local, plan.sends + changed, table).0;
    PutsRequestNothing(puts);
    Together(PutFrames(puts), Closing(plan.deletes));
    ClosingRequestsNothing(plan.deletes);
  }

  lemma ClosingRequestsNothing(ds: seq<Path>)
    ensures Requested(Closing(ds)) == []
  {
    OneMore([], Delete(ds));
    OneMore(if ds == [] then [] else [Delete(ds)], PlanDone);
    assert [] + [Delete(ds)] == [Delete(ds)];
  }

  lemma RequestsAreWanted(plan: Plan)
    ensures Requested(Requests(plan)) == Wanted(plan)
  {
    var x := if plan.mkdirs == [] then [] else [Mkdir(plan.mkdirs)];
    var y := if Wanted(plan) == [] then [] else [SigReq(Wanted(plan))];
    OneMore([], Mkdir(plan.mkdirs));
    OneMore([], SigReq(Wanted(plan)));
    assert [] + [Mkdir(plan.mkdirs)] == [Mkdir(plan.mkdirs)] && [] + [SigReq(Wanted(plan))] == [SigReq(Wanted(plan))];
    Together(x, y);
  }

  /** What follows a queue asks for nothing by itself. */
  lemma AfterRequestsNothing(side: Side, next: Next)
    ensures Queued(After(side, next)) == []
    ensures !next.ThenList? ==> InTurn([Hello, Listing([])], After(side, next))
  {
    hide StartPuts, Wanted, Requested;
    if next.ThenCollect? {
      StartRequestsNothing(side, next.plan, map[], []);
    }
  }

  lemma TurnIsLater(taken: seq<Msg>, s: ClientState)
    requires InTurn([Hello, Listing([])], s) && |taken| >= 2 && taken[1].Listing?
    ensures InTurn(taken, s) || s.Broken?
  {}

  lemma ClientSendKeeps(side: Side, taken: seq<Msg>, given: seq<Msg>, s: ClientState)
    requires ClientBalance(side, taken, given, s) && ClientAct(s).Send?
    ensures ClientBalance(side, taken, given + [ClientAct(s).msg], ClientSent(side, s))
  {
    hide After, Requested, Due;
    var m, rest := s.queue[0], s.queue[1..];
    OneMore(given, m);
    OneMore([], m);
    Together([m], rest);
    Nothing();
    assert [m] + rest == s.queue && [] + [m] == [m];
    if rest == [] {
      AfterRequestsNothing(side, s.next);
      AfterInTurn(side, s.next, taken);
    }
  }

  lemma Nothing()
    ensures Requested([]) == [] && Answered([]) == []
  {}

  lemma AfterInTurn(side: Side, next: Next, taken: seq<Msg>)
    requires if next.ThenList? then |taken| == 1 else |taken| >= 2 && taken[1].Listing?
    ensures After(side, next).Broken? || InTurn(taken, After(side, next))
  {
    hide StartPuts, Wanted;
    if !next.ThenList? {
      AfterRequestsNothing(side, next);
      TurnIsLater(taken, After(side, next));
    }
  }

  lemma GotHello(side: Side, taken: seq<Msg>, given: seq<Msg>, m: Msg)
    requires ClientBalance(side, taken, given, AwaitHello)
    ensures ClientBalance(side, taken + [m], given, ClientGot(side, AwaitHello, m))
  {
    hide Requested;
    Nothing();
    OneMore([], SyncReq(side.ex));
    assert [] + [SyncReq(side.ex)] == [SyncReq(side.ex)];
  }

  lemma GotListing(side: Side, taken: seq<Msg>, given: seq<Msg>, m: Msg)
    requires ClientBalance(side, taken, given, AwaitList)
    ensures ClientBalance(side, taken + [m], given, ClientGot(side, AwaitList, m))
  {
    hide Requested, After, PlanOf, MapOf, Requests, Wanted;
    if m.Listing? {
      var plan := PlanOf(side.listing, m.entries, side.delete);
      var next := ThenCollect(plan, MapOf(m.entries));
      Nothing();
      RequestsAreWanted(plan);
      AfterRequestsNothing(side, next);
      AfterInTurn(side, next, taken + [m]);
    }
  }

  lemma GotSig(side: Side, taken: seq<Msg>, given: seq<Msg>, s: ClientState, m: Msg)
    requires s.Collecting? && ClientBalance(side, taken, given, s)
    ensures ClientBalance(side, taken + [m], given, ClientGot(side, s, m))
  {
    hide Requested, Collected, Due;
    DueStays(side, taken, m);
    if m.Sig? {
      ResumeRequestsNothing(side, s, m, taken + [m]);
    }
  }

  lemma DueStays(side: Side, taken: seq<Msg>, m: Msg)
    requires |taken| >= 2
    ensures Due(side, taken + [m]) == Due(side, taken) && (taken + [m])[1] == taken[1]
  {}

  lemma GotDone(side: Side, taken: seq<Msg>, given: seq<Msg>, s: ClientState, m: Msg)
    requires s.AwaitDone? && ClientBalance(side, taken, given, s)
    ensures ClientBalance(side, taken + [m], given, ClientGot(side, s, m))
  {
    hide Requested, Due, Collected, StartPuts, After, PlanOf, MapOf, Requests;
    DueStays(side, taken, m);
    Nothing();
    OneMore([], Quit);
    assert [] + [Quit] == [Quit];
  }

  lemma ClientRecvKeeps(side: Side, taken: seq<Msg>, given: seq<Msg>, s: ClientState, m: Msg)
    requires ClientBalance(side, taken, given, s) && ClientAct(s).Recv?
    ensures ClientBalance(side, taken + [m], given, ClientGot(side, s, m))
  {
    hide ClientBalance, ClientGot;
    match s
    case AwaitHello => GotHello(side, taken, given, m);
    case AwaitList => GotListing(side, taken, given, m);
    case Collecting(_, _, _, _, _) => GotSig(side, taken, given, s, m);
    case AwaitDone(_) => GotDone(side, taken, given, s, m);
  }

  predicate Quiet(taken: seq<Msg>, s: ClientState)
  {
    s.Broken? || (InTurn(taken, s) && Queued(s) == [])
  }

  lemma ResumeRequestsNothing(side: Side, s: ClientState, m: Msg, taken: seq<Msg>)
    requires s.Collecting? && m.Sig? && |taken| >= 2 && taken[1].Listing?
    ensures Quiet(taken, ClientGot(side, s, m))
  {
    hide Resume, Quiet, GatherOne, VerifyOne, Wanted;
    BrokenIsQuiet(taken);
    var Collecting(plan, remote, i, table, changed) := s;
    if i < |plan.sigWanted| && i < |Wanted(plan)| {
      match GatherOne(table, plan.sigWanted[i], m.reply, remote)
      case None =>
      case Some(more) => ResumeQuiet(side, plan, remote, i + 1, more, changed, taken);
    } else if i < |Wanted(plan)| {
      WantedLength(plan);
      var check := plan.verify[i - |plan.sigWanted|];
      match VerifyOne(side.f, side.local, check, m.reply)
      case None =>
      case Some(differs) =>
        ResumeQuiet(side, plan, remote, i + 1, table, changed + if differs then [check] else [], taken);
    }
  }

  lemma WantedLength(plan: Plan)
    ensures |Wanted(plan)| == |plan.sigWanted| + |plan.verify|
  {}

  lemma BrokenIsQuiet(taken: seq<Msg>)
    ensures Quiet(taken, Broken)
  {}

  lemma ResumeQuiet(side: Side, plan: Plan, remote: Entries, i: nat, table: SigTable, changed: seq<Meta>, taken: seq<Msg>)
    requires |taken| >= 2 && taken[1].Listing?
    ensures Quiet(taken, Resume(side, plan, remote, i, table, changed))
  {
    hide StartPuts, Wanted, Requested;
    StartRequestsNothing(side, plan, table, changed);
    TurnIsLater(taken, StartPuts(side, plan, table, changed));
  }

  /** In every trace of the client: it asks for what is due, once. */
  lemma ClientAsks(side: Side, n: nat, taken: seq<Msg>, given: seq<Msg>, s: ClientState)
    requires Traces(Client(side), AwaitHello, n, taken, given, s)
    ensures ClientBalance(side, taken, given, s)
  {
    hide ClientBalance, ClientAct, ClientSent, ClientGot;
    var keeps := ClientKeeps(side);
    forall taken, given, s | keeps(taken, given, s) && Client(side).act(s).Send?
      ensures keeps(taken, given + [Client(side).act(s).msg], Client(side).sent(s))
    {
      ClientSendKeeps(side, taken, given, s);
    }
    forall taken, given, s, m: Msg | keeps(taken, given, s) && Client(side).act(s).Recv?
      ensures keeps(taken + [m], given, Client(side).got(s, m))
    {
      ClientRecvKeeps(side, taken, given, s, m);
    }
    NothingAsked(side);
    TraceKeeps(Client(side), keeps, AwaitHello, n, taken, given, s, [], []);
    assert [] + taken == taken && [] + given == given;
  }

  lemma NothingAsked(side: Side)
    ensures ClientBalance(side, [], [], AwaitHello)
  {}

  // ----- both -----

  /** The account of a run: `down` are the frames the client has taken. Whatever the
    * peers do, the answers the client has are the first of those that are due, in
    * order. While neither has failed, every path due is answered, in flight as an
    * answer, owed, in flight as a request, or queued, in this order. */
  lemma EveryPathAccounted(side: Side, w: World, t: Tree, room: nat, xs: seq<Config<ClientState, AgentState, Msg>>)
    returns (n: nat, m: nat, up: seq<Msg>, down: seq<Msg>)
    requires Execution(Client(side), Agent(w), room, AwaitHello, Greeting(t), xs)
    ensures var x := xs[|xs| - 1];
            && Traces(Client(side), AwaitHello, n, down, up + x.up, x.c)
            && Traces(Agent(w), Greeting(t), m, up, down + x.down, x.a)
            && (!x.c.Broken? ==> Begins(Answered(down), Due(side, down)))
            && (!x.c.Broken? && !x.a.Failing? && ErrorFrame !in x.down ==>
                  Answered(down) + Answered(x.down) + Owed(x.a) + Requested(x.up) + Queued(x.c) == Due(side, down))
  {
    hide Traces, Requested, Answered, Due, Queued, Owed, InTurn;
    n, m, up, down := RunsAreTraces(Client(side), Agent(w), room, AwaitHello, Greeting(t), xs, |xs| - 1);
    var x := xs[|xs| - 1];
    ClientAsks(side, n, down, up + x.up, x.c);
    AgentAnswers(w, t, m, up, down + x.down, x.a);
    Together(down, x.down);
    Together(up, x.up);
  }

  /** At the end of every run of an honest pair, the SIG frames the client has received
    * are exactly one for each path due, in order. */
  lemma OneSigForEachPath(j: Convergence.Job, side: Side, w: World, room: nat, xs: seq<Config<ClientState, AgentState, Msg>>)
    returns (n: nat, m: nat, up: seq<Msg>, down: seq<Msg>)
    requires Honest(j, side, w) && room >= 1
    requires Execution(Client(side), Agent(w), room, AwaitHello, Greeting(j.remote), xs)
    requires Stuck(Client(side), Agent(w), room, xs[|xs| - 1])
    ensures Traces(Client(side), AwaitHello, n, down, up, xs[|xs| - 1].c)
    ensures Answered(down) == Due(side, down)
  {
    hide Honest, Traces, Requested, Answered, Due, Stuck, FrameSafe, SyncedTo;
    SyncInEveryInterleaving(j, side, w, room, xs);
    n, m, up, down := EveryPathAccounted(side, w, j.remote, room, xs);
    var x := xs[|xs| - 1];
    assert up + x.up == up;
    Nothing();
  }
}
