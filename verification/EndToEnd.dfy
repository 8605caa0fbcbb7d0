/** The loops of both sides put together: given each other's frames, they do what the
  * conversations of their peers do. */
module EndToEnd {
  import opened Paths
  import opened FileTree
  import opened Convergence
  import opened Safety
  import opened Session
  import opened AgentPeer
  import opened SyncProtocol
  import AgentFs
  import AgentServer
  import F = FetchProtocol
  import FetchClient
  import SyncClient

  // ----- the streams -----

  /** The two streams of a completed sync: the client follows `down` giving `up`, the
    * agent follows `up` giving `down`, and every hand-over is one of the conversation. */
  ghost predicate Streams(j: Job, side: Side, w: World, up: seq<Msg>, down: seq<Msg>, files: nat, t: Tree)
  {
    && (exists n :: Traces(Client(side), AwaitHello, n, down, up, Finished(files)))
    && (exists n :: Traces(Agent(w), Greeting(j.remote), n, up, down, Closed(t)))
    && (forall k | 0 <= k < |up| :: HandedUp(Client(side), Agent(w), Inv(j), Greeting(j.remote), up, k))
    && (forall m <- down :: HandedDown(Agent(w), Inv(j), m))
  }

  lemma StreamsExist(j: Job, side: Side, w: World) returns (up: seq<Msg>, down: seq<Msg>, files: nat, t: Tree)
    requires Honest(j, side, w)
    ensures Streams(j, side, w, up, down, files, t) && SyncedTo(j, side, w, files, t)
  {
    hide Honest, SyncedTo, HandedUp, HandedDown, Client, Agent, Inv;
    var n;
    n, files, t := SyncSucceeds(j, side, w);
    up, down := RunsGiveTraces(Client(side), Agent(w), Inv(j), AwaitHello, Greeting(j.remote), n, Finished(files), Closed(t));
  }

  /** Every frame with data fits. */
  lemma StreamsFit(j: Job, side: Side, w: World, up: seq<Msg>, down: seq<Msg>, files: nat, t: Tree)
    requires Honest(j, side, w) && Streams(j, side, w, up, down, files, t)
    ensures (forall m <- up :: DataFits(m) && FrameCarries(j, m)) && (forall m <- down :: DataFits(m))
    ensures AgentServer.FramesFit(up) && SyncClient.RepliesFit(down)
  {
    hide HandedUp, HandedDown, Setup, Traces, Carries;
    forall m | m in up ensures DataFits(m) && FrameCarries(j, m) {
      var k :| 0 <= k < |up| && up[k] == m;
      UpFits(j, side, w, up, k);
    }
    forall m | m in down ensures DataFits(m) {
      DownFits(j, w, m);
    }
  }

  lemma UpFits(j: Job, side: Side, w: World, up: seq<Msg>, k: nat)
    requires k < |up| && HandedUp(Client(side), Agent(w), Inv(j), Greeting(j.remote), up, k)
    ensures DataFits(up[k]) && FrameCarries(j, up[k])
  {
    hide Traces, Carries;
    var n: nat, given, c, a :| Inv(j)(c, a) && Client(side).act(c) == Send(up[k]) && Agent(w).act(a).Recv? &&
      Traces(Agent(w), Greeting(j.remote), n, up[..k], given, a);
    assert AllWell(j, c, a);
  }

  lemma DownFits(j: Job, w: World, m: Msg)
    requires w.f == j.f && HandedDown(Agent(w), Inv(j), m)
    ensures DataFits(m)
  {
    hide AgentAct, DataFits, NextFits, Safe, FrameSafe;
    var c, a :| Inv(j)(c, a) && Agent(w).act(a) == Send(m);
    assert AllWell(j, c, a) && AgentAct(w, a) == Send(m);
    NextFrameFits(w, a);
  }

  // ----- the sync -----

  /** There is one pair of streams, every frame of which fits and every PUT frame of which
    * carries what it must and no more, such that a client that is
    * given `down` and an agent that is given `up` write exactly each other's input,
    * finish without error, are not cut off, and leave the remote tree converged. */
  lemma SyncLoopsConverge(j: Job, side: Side, w: World) returns (up: seq<Msg>, down: seq<Msg>, files: nat, t: Tree)
    requires Honest(j, side, w)
    ensures Streams(j, side, w, up, down, files, t) && Converged(j, t, side.delete)
    ensures AgentServer.FramesFit(up) && SyncClient.RepliesFit(down)
    ensures (forall m <- up :: DataFits(m) && FrameCarries(j, m)) && (forall m <- down :: DataFits(m))
    ensures files == |FilesToSend(j)|
    ensures forall n, k, outbox, cutOff, s | AgentServer.Ran(w, j.remote, up, n, k, outbox, cutOff, s) ::
              !cutOff && outbox == down && s == Closed(t)
    ensures forall n, k, outbox, r, s | SyncClient.Ran(side, down, n, k, outbox, r, s) ::
              outbox == up && r == SyncClient.Synced(files)
  {
    hide Honest, Converged, Streams, DataFits, FrameCarries, FilesToSend, AgentServer.Ran, SyncClient.Ran;
    up, down, files, t := StreamsExist(j, side, w);
    StreamsFit(j, side, w, up, down, files, t);
    var n, m := StreamsAreTraces(j, side, w, up, down, files, t);
    forall m1, k, outbox, cutOff, s | AgentServer.Ran(w, j.remote, up, m1, k, outbox, cutOff, s)
      ensures !cutOff && outbox == down && s == Closed(t)
    {
      AgentEnds(w, j.remote, up, down, m, t, m1, k, outbox, cutOff, s);
    }
    forall n1, k, outbox, r, s | SyncClient.Ran(side, down, n1, k, outbox, r, s)
      ensures outbox == up && r == SyncClient.Synced(files)
    {
      ClientEnds(side, up, down, n, files, n1, k, outbox, r, s);
    }
  }

  lemma StreamsAreTraces(j: Job, side: Side, w: World, up: seq<Msg>, down: seq<Msg>, files: nat, t: Tree) returns (n: nat, m: nat)
    requires Streams(j, side, w, up, down, files, t)
    ensures Traces(Client(side), AwaitHello, n, down, up, Finished(files))
    ensures Traces(Agent(w), Greeting(j.remote), m, up, down, Closed(t))
  {
    hide Traces, HandedUp, HandedDown, Client, Agent;
    n :| Traces(Client(side), AwaitHello, n, down, up, Finished(files));
    m :| Traces(Agent(w), Greeting(j.remote), m, up, down, Closed(t));
  }

  /** The agent process has one outcome; in particular it is not cut off. */
  lemma AgentEnds(w: World, t0: Tree, up: seq<Msg>, down: seq<Msg>, n: nat, t: Tree,
                  m: nat, k: nat, outbox: seq<Msg>, cutOff: bool, s: AgentState)
    requires Traces(Agent(w), Greeting(t0), n, up, down, Closed(t))
    requires AgentServer.Ran(w, t0, up, m, k, outbox, cutOff, s)
    ensures !cutOff && outbox == down && s == Closed(t)
  {
    hide AgentSent, AgentGot, Traces;
    assert up[..|up|] == up;
    assert Rests(Agent(w), s, k == |up|) && Rests(Agent(w), Closed(t), |up| == |up|);
    RestsOnce(Agent(w), Greeting(t0), up, m, k, if cutOff then outbox[..|outbox| - 1] else outbox, s, n, |up|, down, Closed(t));
  }

  lemma ClientEnds(side: Side, up: seq<Msg>, down: seq<Msg>, n: nat, files: nat,
                   m: nat, k: nat, outbox: seq<Msg>, r: SyncClient.Ending, s: ClientState)
    requires Traces(Client(side), AwaitHello, n, down, up, Finished(files))
    requires SyncClient.Ran(side, down, m, k, outbox, r, s)
    ensures outbox == up && r == SyncClient.Synced(files)
  {
    hide ClientSent, ClientGot, Traces;
    assert down[..|down|] == down;
    assert Rests(Client(side), s, k == |down|) && Rests(Client(side), Finished(files), |down| == |down|);
    RestsOnce(Client(side), AwaitHello, down, m, k, outbox, s, n, |down|, up, Finished(files));
  }

  // ----- every state of the remote tree -----

  /** Staging names that the local tree does not use either. */
  ghost predicate UnusedNames(j: Job, suffix: (Tree, Path) -> string)
  {
    AgentFs.FreshNames(suffix) && forall t, d | d != [] :: AgentFs.NameFor(suffix, t, d) !in j.local
  }

  /** Safe, but for at most one staging file. */
  ghost predicate SafeButOne(j: Job, suffix: (Tree, Path) -> string, mid: Tree)
  {
    || CrashSafe(j, mid, {})
    || exists t, d | d != [] :: CrashSafe(j, mid, {AgentFs.NameFor(suffix, t, d)})
  }

  /** However much of the client's stream arrives: every state of the tree on the trail
    * of the agent process is safe. */
  lemma TrailIsSafe(j: Job, side: Side, w: World, suffix: (Tree, Path) -> string, up: seq<Msg>, down: seq<Msg>, files: nat,
                    t: Tree, arrived: nat, upTo: nat, mid: Tree)
    requires Honest(j, side, w) && UnusedNames(j, suffix) && Streams(j, side, w, up, down, files, t)
    requires upTo <= arrived <= |up|
    requires AgentServer.Passed(w, suffix, Greeting(j.remote), up[..arrived], 0, upTo, mid)
    ensures SafeButOne(j, suffix, mid)
  {
    hide Honest, Traces, HandedUp, HandedDown, AgentServer.FrameMoment, UnusedNames, SafeButOne;
    var k: nat, n: nat, given, t1 :| 0 <= k < upTo &&
      AgentServer.Follows(w, Greeting(j.remote), n, up[..arrived][0..k], given, Serving(t1)) &&
      AgentServer.FrameMoment(w, suffix, t1, up[..arrived][k], mid);
    assert up[..arrived][0..k] == up[..k] && up[..arrived][k] == up[k];
    HandedThere(j, side, w, up, k, n, given, t1);
    MomentIsSafe(j, w, suffix, t1, up[k], mid);
  }

  /** The frame `up[k]` reaches the agent where the trace of the frames before it leads. */
  lemma HandedThere(j: Job, side: Side, w: World, up: seq<Msg>, k: nat, n: nat, given: seq<Msg>, t: Tree)
    requires k < |up| && HandedUp(Client(side), Agent(w), Inv(j), Greeting(j.remote), up, k)
    requires Traces(Agent(w), Greeting(j.remote), n, up[..k], given, Serving(t))
    requires Honest(j, side, w)
    ensures FrameSafe(j, t, up[k]) && w.now == j.now
  {
    hide Traces, Setup, FrameSafe, Safe, AgentSent, AgentGot;
    var n1: nat, given1, c, a :| Inv(j)(c, a) && Client(side).act(c) == Send(up[k]) && Agent(w).act(a).Recv? &&
      Traces(Agent(w), Greeting(j.remote), n1, up[..k], given1, a);
    var taken := up[..k];
    assert taken[..k] == taken;
    RestsOnce(Agent(w), Greeting(j.remote), taken, n, k, given, Serving(t), n1, k, given1, a);
    assert AllWell(j, c, a);
  }

  lemma MomentIsSafe(j: Job, w: World, suffix: (Tree, Path) -> string, t: Tree, m: Msg, mid: Tree)
    requires FrameSafe(j, t, m) && UnusedNames(j, suffix) && w.now == j.now
    requires AgentServer.FrameMoment(w, suffix, t, m, mid)
    ensures SafeButOne(j, suffix, mid)
  {
    hide CrashSafe, MkdirMoment, DeleteMoment, AgentFs.FreshNames, AgentFs.NameFor;
    if m.PutFrame? {
      var d := m.put.path;
      AgentFs.NameIsFresh(suffix, t, d);
      assert CrashSafe(j, mid, {AgentFs.NameFor(suffix, t, d)});
    }
  }

  // ----- the fetch -----

  lemma FetchFits(j: F.FetchJob, t: Tree, local: Tree, w: World, up: seq<Msg>, down: seq<Msg>)
    requires w.f == j.f
    requires forall k | 0 <= k < |up| :: HandedUp(F.Fetcher(j), Agent(w), F.FetchInv(j, t, local), Greeting(t), up, k)
    requires forall m <- down :: HandedDown(Agent(w), F.FetchInv(j, t, local), m)
    requires F.FetchSetup(j, t, local)
    ensures (forall m <- up :: DataFits(m)) && (forall m <- down :: DataFits(m) && AnswersRightly(j, t, local, m))
    ensures AgentServer.FramesFit(up)
  {
    hide HandedUp, HandedDown, Traces, F.FetchSetup, AnswersRightly;
    forall m | m in up ensures DataFits(m) {
      var k :| 0 <= k < |up| && up[k] == m;
      FetchUpFits(j, t, local, w, up, k);
    }
    forall m | m in down ensures DataFits(m) && AnswersRightly(j, t, local, m) {
      FetchDownFits(j, t, local, w, m);
    }
  }

  lemma FetchUpFits(j: F.FetchJob, t: Tree, local: Tree, w: World, up: seq<Msg>, k: nat)
    requires k < |up| && HandedUp(F.Fetcher(j), Agent(w), F.FetchInv(j, t, local), Greeting(t), up, k)
    ensures DataFits(up[k])
  {
    hide Traces, F.Arrived, DataFits, NextFits, F.FetchAct;
    var n: nat, given, c, a :| F.FetchInv(j, t, local)(c, a) && F.Fetcher(j).act(c) == Send(up[k]) &&
      Agent(w).act(a).Recv? && Traces(Agent(w), Greeting(t), n, up[..k], given, a);
    assert F.FetchWell(j, t, local, c, a) && F.FetchAct(j, c) == Send(up[k]);
  }

  lemma FetchDownFits(j: F.FetchJob, t: Tree, local: Tree, w: World, m: Msg)
    requires F.FetchSetup(j, t, local) && w.f == j.f && HandedDown(Agent(w), F.FetchInv(j, t, local), m)
    ensures DataFits(m) && AnswersRightly(j, t, local, m)
  {
    hide F.Arrived, DataFits, NextFits, AgentAct, F.FetchAct, F.FetchSetup, F.Answers, AnswersRightly;
    var c, a :| F.FetchInv(j, t, local)(c, a) && Agent(w).act(a) == Send(m);
    assert F.FetchWell(j, t, local, c, a) && AgentAct(w, a) == Send(m);
    NextFrameFits(w, a);
    FetchedIsRight(j, t, local, w, a, m);
  }

  /** A FETCHED frame answers one of the requests as it must. */
  ghost predicate AnswersRightly(j: F.FetchJob, t: Tree, local: Tree, m: Msg)
  {
    m.Fetched? ==> exists i | 0 <= i < |j.rels| :: F.AnswerCarries(j, t, local, i, m.answer)
  }

  lemma FetchedIsRight(j: F.FetchJob, t: Tree, local: Tree, w: World, a: AgentState, m: Msg)
    requires F.FetchSetup(j, t, local) && w.f == j.f && a.tree == t && F.Answers(j, local, a)
    requires AgentAct(w, a) == Send(m)
    ensures AnswersRightly(j, t, local, m)
  {
    hide F.FetchSetup, F.AnswerCarries, AnswerFor, F.BasisAfter;
    if m.Fetched? {
      var i :| 0 <= i < |j.rels| && a.rels[0] == j.rels[i];
      F.AnswerIsRight(j, t, local, local, i);
    }
  }

  /** The same for a fetch: every frame fits, every answer carries what it must, both sides finish without error or being
    * cut off, and every file that is there has arrived. */
  lemma FetchLoopsArrive(j: F.FetchJob, t: Tree, local: Tree, w: World) returns (up: seq<Msg>, down: seq<Msg>)
    requires F.FetchSetup(j, t, local) && w.f == j.f
    ensures AgentServer.FramesFit(up) && forall m <- up :: DataFits(m)
    ensures forall m <- down :: DataFits(m) && AnswersRightly(j, t, local, m)
    ensures forall n, k, outbox, cutOff, s | AgentServer.Ran(w, t, up, n, k, outbox, cutOff, s) ::
              !cutOff && outbox == down && s == Closed(t)
    ensures forall n, k, outbox, r, now, s | FetchClient.Ran(j, local, down, n, k, outbox, r, now, s) ::
              outbox == up && r == FetchClient.Written(F.Names(j, t, |j.rels|)) && F.Arrived(j, t, local, |j.rels|, now)
  {
    hide F.FetchSetup, F.Arrived, F.Names, F.LocalAfter, AgentServer.Ran, FetchClient.Ran, HandedUp, HandedDown, DataFits, AnswersRightly, Traces,
      Agent, F.Fetcher, F.FetchInv;
    var n, all := 2 * |j.rels| + 4, |j.rels|;
    var done, names := F.LocalAfter(j, t, local, all), F.Names(j, t, all);
    F.FetchSucceeds(j, t, local, w);
    F.AllArrive(j, t, local, all);
    up, down := RunsGiveTraces(F.Fetcher(j), Agent(w), F.FetchInv(j, t, local), F.Opening(local), Greeting(t), n,
                               F.Over(done, names), Closed(t));
    FetchFits(j, t, local, w, up, down);
    forall m, k, outbox, cutOff, s | AgentServer.Ran(w, t, up, m, k, outbox, cutOff, s)
      ensures !cutOff && outbox == down && s == Closed(t)
    {
      AgentEnds(w, t, up, down, n, t, m, k, outbox, cutOff, s);
    }
    forall m, k, outbox, r, now, s | FetchClient.Ran(j, local, down, m, k, outbox, r, now, s)
      ensures outbox == up && r == FetchClient.Written(names) && F.Arrived(j, t, local, all, now)
    {
      FetcherEnds(j, local, up, down, n, done, names, m, k, outbox, r, now, s);
    }
  }

  lemma FetcherEnds(j: F.FetchJob, local: Tree, up: seq<Msg>, down: seq<Msg>, n: nat, done: Tree, names: seq<string>,
                    m: nat, k: nat, outbox: seq<Msg>, r: FetchClient.Ending, now: Tree, s: F.FetchState)
    requires Traces(F.Fetcher(j), F.Opening(local), n, down, up, F.Over(done, names))
    requires FetchClient.Ran(j, local, down, m, k, outbox, r, now, s)
    ensures outbox == up && r == FetchClient.Written(names) && now == done
  {
    hide F.FetchSent, F.FetchGot, Traces;
    assert down[..|down|] == down;
    assert Rests(F.Fetcher(j), s, k == |down|) && Rests(F.Fetcher(j), F.Over(done, names), |down| == |down|);
    RestsOnce(F.Fetcher(j), F.Opening(local), down, m, k, outbox, s, n, |down|, up, F.Over(done, names));
  }
}
