/** Two deterministic peers over a pair of FIFO channels, as the client and the
  * agent of src/agent.rs run. If the peers complete a conversation when every
  * message is handed over at once, they complete it in every interleaving over
  * buffered channels too, with the same outcome. */
module Session {

  datatype Act<+M> = Send(msg: M) | Recv | Stop

  /** What a peer does next, and how sending and receiving change it. */
  datatype Peer<!S, !M> = Peer(act: S -> Act<M>, sent: S -> S, got: (S, M) -> S)

  // ----- handing messages over at once -----

  predicate CanMeet<C, A, M>(client: Peer<C, M>, agent: Peer<A, M>, c: C, a: A)
  {
    || (client.act(c).Send? && agent.act(a).Recv?)
    || (client.act(c).Recv? && agent.act(a).Send?)
  }

  function Meet<C, A, M>(client: Peer<C, M>, agent: Peer<A, M>, c: C, a: A): (C, A)
    requires CanMeet(client, agent, c, a)
  {
    if client.act(c).Send? then (client.sent(c), agent.got(a, client.act(c).msg))
    else (client.got(c, agent.act(a).msg), agent.sent(a))
  }

  /** From `c`, `a` the peers get to `c1`, `a1` in `n` hand-overs, keeping `inv`. */
  ghost predicate Runs<C, A, M>(client: Peer<C, M>, agent: Peer<A, M>, inv: (C, A) -> bool,
                                c: C, a: A, n: nat, c1: C, a1: A)
  {
    inv(c, a) &&
    if n == 0 then c == c1 && a == a1
    else CanMeet(client, agent, c, a) &&
         var (c2, a2) := Meet(client, agent, c, a);
         Runs(client, agent, inv, c2, a2, n - 1, c1, a1)
  }

  lemma {:induction false} RunsAppend<C, A, M>(client: Peer<C, M>, agent: Peer<A, M>, inv: (C, A) -> bool,
                                               c: C, a: A, n: nat, c1: C, a1: A, m: nat, c2: C, a2: A)
    requires Runs(client, agent, inv, c, a, n, c1, a1) && Runs(client, agent, inv, c1, a1, m, c2, a2)
    ensures Runs(client, agent, inv, c, a, n + m, c2, a2)
  {
    if n > 0 {
      var (x, y) := Meet(client, agent, c, a);
      RunsAppend(client, agent, inv, x, y, n - 1, c1, a1, m, c2, a2);
    }
  }

  /** The states after `k` hand-overs. */
  ghost function At<C, A, M>(client: Peer<C, M>, agent: Peer<A, M>, c: C, a: A, k: nat): (C, A)
  {
    if k == 0 then (c, a)
    else
      var (x, y) := At(client, agent, c, a, k - 1);
      if CanMeet(client, agent, x, y) then Meet(client, agent, x, y) else (x, y)
  }

  lemma {:induction false} AtShift<C, A, M>(client: Peer<C, M>, agent: Peer<A, M>, c: C, a: A, k: nat)
    requires CanMeet(client, agent, c, a)
    ensures var (x, y) := Meet(client, agent, c, a);
            At(client, agent, c, a, k + 1) == At(client, agent, x, y, k)
  {
    if k > 0 { AtShift(client, agent, c, a, k - 1); }
  }

  lemma {:induction false} RunsAt<C, A, M>(client: Peer<C, M>, agent: Peer<A, M>, inv: (C, A) -> bool,
                                           c: C, a: A, n: nat, c1: C, a1: A, k: nat)
    requires Runs(client, agent, inv, c, a, n, c1, a1) && k <= n
    ensures var (x, y) := At(client, agent, c, a, k);
            && inv(x, y)
            && (k < n ==> CanMeet(client, agent, x, y))
            && (k == n ==> x == c1 && y == a1)
  {
    if k > 0 {
      var (x, y) := Meet(client, agent, c, a);
      RunsAt(client, agent, inv, x, y, n - 1, c1, a1, k - 1);
      AtShift(client, agent, c, a, k - 1);
    }
  }

  // ----- buffered channels -----

  /** Both peers and what is in flight to the agent (`up`) and to the client (`down`). */
  datatype Config<C, A, M> = Config(c: C, a: A, up: seq<M>, down: seq<M>)

  /** One peer sends into a channel that has room, or takes the oldest message. */
  predicate Step<C(==), A(==), M(==)>(client: Peer<C, M>, agent: Peer<A, M>, room: nat, x: Config<C, A, M>, y: Config<C, A, M>)
  {
    || (client.act(x.c).Send? && |x.up| < room &&
        y == x.(c := client.sent(x.c), up := x.up + [client.act(x.c).msg]))
    || (client.act(x.c).Recv? && x.down != [] &&
        y == x.(c := client.got(x.c, x.down[0]), down := x.down[1..]))
    || (agent.act(x.a).Send? && |x.down| < room &&
        y == x.(a := agent.sent(x.a), down := x.down + [agent.act(x.a).msg]))
    || (agent.act(x.a).Recv? && x.up != [] &&
        y == x.(a := agent.got(x.a, x.up[0]), up := x.up[1..]))
  }

  ghost predicate Stuck<C(!new), A(!new), M(!new)>(client: Peer<C, M>, agent: Peer<A, M>, room: nat, x: Config<C, A, M>)
  {
    forall y :: !Step(client, agent, room, x, y)
  }

  /** A run from the start states with empty channels, taken step by step in any order. */
  ghost predicate Execution<C, A, M>(client: Peer<C, M>, agent: Peer<A, M>, room: nat, c: C, a: A, xs: seq<Config<C, A, M>>)
  {
    && xs != [] && xs[0] == Config(c, a, [], [])
    && forall i | 0 <= i < |xs| - 1 :: Step(client, agent, room, xs[i], xs[i + 1])
  }

  /** In `x` the client has done its part of the first `pc` hand-overs, the agent
    * its part of the first `pa`, and the messages between them are in flight. */
  ghost predicate Lag<C, A, M>(client: Peer<C, M>, agent: Peer<A, M>, c: C, a: A, n: nat,
                               x: Config<C, A, M>, pc: nat, pa: nat)
  {
    && pc <= n && pa <= n
    && x.c == At(client, agent, c, a, pc).0
    && x.a == At(client, agent, c, a, pa).1
    && if pa <= pc then
         && x.down == [] && |x.up| == pc - pa
         && forall i | pa <= i < pc :: client.act(At(client, agent, c, a, i).0) == Send(x.up[i - pa])
       else
         && x.up == [] && |x.down| == pa - pc
         && forall i | pc <= i < pa :: agent.act(At(client, agent, c, a, i).1) == Send(x.down[i - pc])
  }

  /** A conversation that completes when messages are handed over at once. */
  ghost predicate Completes<C, A, M>(client: Peer<C, M>, agent: Peer<A, M>, inv: (C, A) -> bool,
                                     c: C, a: A, n: nat, c1: C, a1: A)
  {
    Runs(client, agent, inv, c, a, n, c1, a1) && client.act(c1).Stop? && agent.act(a1).Stop?
  }

  /** Every step advances one peer by one hand-over. */
  lemma LagStep<C, A, M>(client: Peer<C, M>, agent: Peer<A, M>, inv: (C, A) -> bool, c: C, a: A, n: nat, c1: C, a1: A,
                         room: nat, x: Config<C, A, M>, y: Config<C, A, M>, pc: nat, pa: nat)
    requires Completes(client, agent, inv, c, a, n, c1, a1)
    requires Lag(client, agent, c, a, n, x, pc, pa) && Step(client, agent, room, x, y)
    ensures Lag(client, agent, c, a, n, y, pc + 1, pa) || Lag(client, agent, c, a, n, y, pc, pa + 1)
  {
    RunsAt(client, agent, inv, c, a, n, c1, a1, pc);
    RunsAt(client, agent, inv, c, a, n, c1, a1, pa);
    var (xc, xa) := At(client, agent, c, a, pc);
    var (yc, ya) := At(client, agent, c, a, pa);
    if client.act(x.c).Send? && y == x.(c := client.sent(x.c), up := x.up + [client.act(x.c).msg]) {
      assert pa <= pc < n;
      assert At(client, agent, c, a, pc + 1) == Meet(client, agent, xc, xa);
      assert Lag(client, agent, c, a, n, y, pc + 1, pa);
    } else if client.act(x.c).Recv? && x.down != [] && y == x.(c := client.got(x.c, x.down[0]), down := x.down[1..]) {
      assert pc < pa;
      assert agent.act(xa) == Send(x.down[0]);
      assert At(client, agent, c, a, pc + 1) == Meet(client, agent, xc, xa);
      assert Lag(client, agent, c, a, n, y, pc + 1, pa);
    } else if agent.act(x.a).Send? && y == x.(a := agent.sent(x.a), down := x.down + [agent.act(x.a).msg]) {
      assert client.act(yc).Recv?;
      assert pc <= pa < n;
      assert At(client, agent, c, a, pa + 1) == Meet(client, agent, yc, ya);
      assert Lag(client, agent, c, a, n, y, pc, pa + 1);
    } else {
      assert pa < pc;
      assert client.act(yc) == Send(x.up[0]);
      assert At(client, agent, c, a, pa + 1) == Meet(client, agent, yc, ya);
      assert Lag(client, agent, c, a, n, y, pc, pa + 1);
    }
  }

  lemma {:induction false} LagHolds<C, A, M>(client: Peer<C, M>, agent: Peer<A, M>, inv: (C, A) -> bool,
                                             c: C, a: A, n: nat, c1: C, a1: A,
                                             room: nat, xs: seq<Config<C, A, M>>, k: nat) returns (pc: nat, pa: nat)
    requires Completes(client, agent, inv, c, a, n, c1, a1)
    requires Execution(client, agent, room, c, a, xs) && k < |xs|
    ensures Lag(client, agent, c, a, n, xs[k], pc, pa) && pc + pa == k
  {
    if k == 0 {
      pc, pa := 0, 0;
    } else {
      pc, pa := LagHolds(client, agent, inv, c, a, n, c1, a1, room, xs, k - 1);
      assert Step(client, agent, room, xs[k - 1], xs[k - 1 + 1]);
      LagStep(client, agent, inv, c, a, n, c1, a1, room, xs[k - 1], xs[k], pc, pa);
      if Lag(client, agent, c, a, n, xs[k], pc + 1, pa) { pc := pc + 1; } else { pa := pa + 1; }
    }
  }

  /** Some peer can move until both have finished. */
  lemma LagMoves<C(!new), A(!new), M(!new)>(client: Peer<C, M>, agent: Peer<A, M>, inv: (C, A) -> bool,
                                            c: C, a: A, n: nat, c1: C, a1: A,
                                            room: nat, x: Config<C, A, M>, pc: nat, pa: nat)
    requires Completes(client, agent, inv, c, a, n, c1, a1) && room >= 1
    requires Lag(client, agent, c, a, n, x, pc, pa)
    ensures Stuck(client, agent, room, x) <==> pc == n && pa == n
    ensures pc == n && pa == n ==> x == Config(c1, a1, [], [])
  {
    RunsAt(client, agent, inv, c, a, n, c1, a1, pc);
    RunsAt(client, agent, inv, c, a, n, c1, a1, pa);
    var (xc, xa) := At(client, agent, c, a, pc);
    var (yc, ya) := At(client, agent, c, a, pa);
    if pa < pc {
      assert client.act(yc) == Send(x.up[0]);
      assert Step(client, agent, room, x, x.(a := agent.got(x.a, x.up[0]), up := x.up[1..]));
    } else if pc < pa {
      assert agent.act(xa) == Send(x.down[0]);
      assert Step(client, agent, room, x, x.(c := client.got(x.c, x.down[0]), down := x.down[1..]));
    } else if pc < n {
      if client.act(xc).Send? {
        assert Step(client, agent, room, x, x.(c := client.sent(x.c), up := x.up + [client.act(x.c).msg]));
      } else {
        assert Step(client, agent, room, x, x.(a := agent.sent(x.a), down := x.down + [agent.act(x.a).msg]));
      }
    }
  }

  /** In every interleaving, whatever room the channels have: at most one direction
    * carries messages, each peer is in a state it also reaches when messages are
    * handed over at once (where the message it is about to take is being sent), some
    * peer can move until both are done, and the run ends after exactly two steps a
    * message in the same final states. */
  lemma EveryInterleaving<C(!new), A(!new), M(!new)>(client: Peer<C, M>, agent: Peer<A, M>, inv: (C, A) -> bool,
                                                     c: C, a: A, n: nat, c1: C, a1: A,
                                                     room: nat, xs: seq<Config<C, A, M>>)
    requires Completes(client, agent, inv, c, a, n, c1, a1) && room >= 1
    requires Execution(client, agent, room, c, a, xs)
    ensures var x := xs[|xs| - 1];
            && (x.up == [] || x.down == [])
            && (exists a' :: inv(x.c, a'))
            && (exists c' :: inv(c', x.a) && (x.up != [] ==> client.act(c') == Send(x.up[0])))
            && |xs| - 1 <= 2 * n
            && (Stuck(client, agent, room, x) <==> |xs| - 1 == 2 * n)
            && (Stuck(client, agent, room, x) ==> x == Config(c1, a1, [], []))
  {
    var x := xs[|xs| - 1];
    var pc, pa := LagHolds(client, agent, inv, c, a, n, c1, a1, room, xs, |xs| - 1);
    LagMoves(client, agent, inv, c, a, n, c1, a1, room, x, pc, pa);
    RunsAt(client, agent, inv, c, a, n, c1, a1, pc);
    RunsAt(client, agent, inv, c, a, n, c1, a1, pa);
    assert inv(x.c, At(client, agent, c, a, pc).1);
    var sender := At(client, agent, c, a, pa).0;
    assert x.up != [] ==> client.act(sender) == Send(x.up[0]);
    assert inv(sender, x.a);
  }

  // ----- one peer on its own -----

  /** From `s` the peer gets to `s1` in `n` actions, taking and giving these messages. */
  ghost predicate Traces<S, M>(p: Peer<S, M>, s: S, n: nat, taken: seq<M>, given: seq<M>, s1: S)
    decreases n
  {
    if n == 0 then taken == [] && given == [] && s == s1
    else
      match p.act(s)
      case Send(m) => given != [] && given[0] == m && Traces(p, p.sent(s), n - 1, taken, given[1..], s1)
      case Recv => taken != [] && Traces(p, p.got(s, taken[0]), n - 1, taken[1..], given, s1)
      case Stop => false
  }

  lemma {:induction false} TracesAppend<S, M>(p: Peer<S, M>, s: S, n: nat, taken: seq<M>, given: seq<M>, s1: S,
                                              m: nat, taken1: seq<M>, given1: seq<M>, s2: S)
    requires Traces(p, s, n, taken, given, s1) && Traces(p, s1, m, taken1, given1, s2)
    ensures Traces(p, s, n + m, taken + taken1, given + given1, s2)
    decreases n
  {
    if n == 0 {
      assert taken + taken1 == taken1 && given + given1 == given1;
    } else if p.act(s).Send? {
      TracesAppend(p, p.sent(s), n - 1, taken, given[1..], s1, m, taken1, given1, s2);
      assert (given + given1)[1..] == given[1..] + given1;
    } else {
      TracesAppend(p, p.got(s, taken[0]), n - 1, taken[1..], given, s1, m, taken1, given1, s2);
      assert (taken + taken1)[1..] == taken[1..] + taken1;
    }
  }

  lemma TracesSend<S, M>(p: Peer<S, M>, s: S, n: nat, taken: seq<M>, given: seq<M>, s1: S)
    requires Traces(p, s, n, taken, given, s1) && p.act(s1).Send?
    ensures Traces(p, s, n + 1, taken, given + [p.act(s1).msg], p.sent(s1))
  {
    var m := p.act(s1).msg;
    assert [m][1..] == [] && taken + [] == taken;
    assert Traces(p, p.sent(s1), 0, [], [], p.sent(s1));
    TracesAppend(p, s, n, taken, given, s1, 1, [], [m], p.sent(s1));
  }

  lemma TracesRecv<S, M>(p: Peer<S, M>, s: S, n: nat, taken: seq<M>, given: seq<M>, s1: S, m: M)
    requires Traces(p, s, n, taken, given, s1) && p.act(s1).Recv?
    ensures Traces(p, s, n + 1, taken + [m], given, p.got(s1, m))
  {
    assert [m][1..] == [] && given + [] == given;
    assert Traces(p, p.got(s1, m), 0, [], [], p.got(s1, m));
    TracesAppend(p, s, n, taken, given, s1, 1, [m], [], p.got(s1, m));
  }

  /** What every action of a peer keeps, every trace keeps. */
  ghost predicate KeptByActions<S(!new), M(!new)>(p: Peer<S, M>, keeps: (seq<M>, seq<M>, S) -> bool)
  {
    && (forall taken, given, s {:trigger keeps(taken, given, s), p.act(s)} | keeps(taken, given, s) && p.act(s).Send? ::
          keeps(taken, given + [p.act(s).msg], p.sent(s)))
    && (forall taken, given, s, m: M {:trigger keeps(taken, given, s), p.got(s, m)} | keeps(taken, given, s) && p.act(s).Recv? ::
          keeps(taken + [m], given, p.got(s, m)))
  }

  lemma {:induction false} TraceKeeps<S(!new), M(!new)>(p: Peer<S, M>, keeps: (seq<M>, seq<M>, S) -> bool, s: S,
                                                        n: nat, taken: seq<M>, given: seq<M>, s1: S, taken0: seq<M>, given0: seq<M>)
    requires KeptByActions(p, keeps) && Traces(p, s, n, taken, given, s1) && keeps(taken0, given0, s)
    ensures keeps(taken0 + taken, given0 + given, s1)
    decreases n
  {
    if n == 0 {
      assert taken0 + taken == taken0 && given0 + given == given0;
    } else if p.act(s).Send? {
      TraceKeeps(p, keeps, p.sent(s), n - 1, taken, given[1..], s1, taken0, given0 + [given[0]]);
      assert given0 + [given[0]] + given[1..] == given0 + given;
    } else {
      TraceKeeps(p, keeps, p.got(s, taken[0]), n - 1, taken[1..], given, s1, taken0 + [taken[0]], given0);
      assert taken0 + [taken[0]] + taken[1..] == taken0 + taken;
    }
  }

  /** What a peer gives and where it gets depend only on what it takes. */
  lemma {:induction false} TracesAgree<S, M>(p: Peer<S, M>, s: S, n: nat, m: nat, stream: seq<M>,
                                             i: nat, given: seq<M>, s1: S, k: nat, given1: seq<M>, s2: S)
    requires i <= |stream| && k <= |stream| && n <= m
    requires Traces(p, s, n, stream[..i], given, s1) && Traces(p, s, m, stream[..k], given1, s2)
    ensures i <= k && |given| <= |given1| && given == given1[..|given|]
    ensures n == m ==> i == k && given == given1 && s1 == s2
    decreases n
  {
    if n > 0 {
      if p.act(s).Send? {
        TracesAgree(p, p.sent(s), n - 1, m - 1, stream, i, given[1..], s1, k, given1[1..], s2);
        assert given == [given[0]] + given[1..] && given1 == [given1[0]] + given1[1..];
      } else {
        assert stream[..i][1..] == stream[1..][..i - 1] && stream[..k][1..] == stream[1..][..k - 1];
        TracesAgree(p, p.got(s, stream[0]), n - 1, m - 1, stream[1..], i - 1, given, s1, k - 1, given1, s2);
      }
    }
  }

  /** In a run each peer follows its own trace, and what one has given and the other
    * has not yet taken is in flight, in order. */
  lemma {:induction false} RunsAreTraces<C, A, M>(client: Peer<C, M>, agent: Peer<A, M>, room: nat, c: C, a: A,
                                                  xs: seq<Config<C, A, M>>, k: nat)
    returns (n: nat, m: nat, up: seq<M>, down: seq<M>)
    requires Execution(client, agent, room, c, a, xs) && k < |xs|
    ensures n + m == k
    ensures Traces(client, c, n, down, up + xs[k].up, xs[k].c)
    ensures Traces(agent, a, m, up, down + xs[k].down, xs[k].a)
  {
    if k == 0 {
      n, m, up, down := 0, 0, [], [];
    } else {
      n, m, up, down := RunsAreTraces(client, agent, room, c, a, xs, k - 1);
      assert Step(client, agent, room, xs[k - 1], xs[k - 1 + 1]);
      n, m, up, down := TraceStep(client, agent, room, c, a, xs[k - 1], xs[k], n, m, up, down);
    }
  }

  lemma TraceStep<C, A, M>(client: Peer<C, M>, agent: Peer<A, M>, room: nat, c: C, a: A,
                           x: Config<C, A, M>, y: Config<C, A, M>, n0: nat, m0: nat, up0: seq<M>, down0: seq<M>)
    returns (n: nat, m: nat, up: seq<M>, down: seq<M>)
    requires Step(client, agent, room, x, y)
    requires Traces(client, c, n0, down0, up0 + x.up, x.c) && Traces(agent, a, m0, up0, down0 + x.down, x.a)
    ensures n + m == n0 + m0 + 1
    ensures Traces(client, c, n, down, up + y.up, y.c) && Traces(agent, a, m, up, down + y.down, y.a)
  {
    n, m, up, down := n0, m0, up0, down0;
    if client.act(x.c).Send? && y == x.(c := client.sent(x.c), up := x.up + [client.act(x.c).msg]) {
      TracesSend(client, c, n, down, up + x.up, x.c);
      assert up + y.up == up + x.up + [client.act(x.c).msg];
      n := n + 1;
    } else if client.act(x.c).Recv? && x.down != [] && y == x.(c := client.got(x.c, x.down[0]), down := x.down[1..]) {
      TracesRecv(client, c, n, down, up + x.up, x.c, x.down[0]);
      assert down + x.down == down + [x.down[0]] + y.down;
      n, down := n + 1, down + [x.down[0]];
    } else if agent.act(x.a).Send? && y == x.(a := agent.sent(x.a), down := x.down + [agent.act(x.a).msg]) {
      TracesSend(agent, a, m, up, down + x.down, x.a);
      assert down + y.down == down + x.down + [agent.act(x.a).msg];
      m := m + 1;
    } else {
      TracesRecv(agent, a, m, up, down + x.down, x.a, x.up[0]);
      assert up + x.up == up + [x.up[0]] + y.up;
      m, up := m + 1, up + [x.up[0]];
    }
  }

  /** A peer that has stopped, or waits for a message that does not come. */
  predicate Rests<S, M>(p: Peer<S, M>, s: S, drained: bool)
  {
    p.act(s).Stop? || (p.act(s).Recv? && drained)
  }

  /** However far a peer follows a stream: once it rests, there is one outcome. */
  lemma {:induction false} RestsOnce<S, M>(p: Peer<S, M>, s: S, stream: seq<M>, n: nat, i: nat, given: seq<M>, s1: S,
                                           m: nat, k: nat, given1: seq<M>, s2: S)
    requires i <= |stream| && Traces(p, s, n, stream[..i], given, s1) && Rests(p, s1, i == |stream|)
    requires k <= |stream| && Traces(p, s, m, stream[..k], given1, s2) && Rests(p, s2, k == |stream|)
    ensures n == m && i == k && given == given1 && s1 == s2
    decreases n
  {
    if n > 0 && m > 0 {
      if p.act(s).Send? {
        RestsOnce(p, p.sent(s), stream, n - 1, i, given[1..], s1, m - 1, k, given1[1..], s2);
        assert given == [given[0]] + given[1..] && given1 == [given1[0]] + given1[1..];
      } else {
        assert stream[..i][1..] == stream[1..][..i - 1] && stream[..k][1..] == stream[1..][..k - 1];
        RestsOnce(p, p.got(s, stream[0]), stream[1..], n - 1, i - 1, given, s1, m - 1, k - 1, given1, s2);
      }
    }
  }

  /** The message `up[k]` is handed to an agent that has taken the ones before. */
  ghost predicate HandedUp<C(!new), A(!new), M(!new)>(client: Peer<C, M>, agent: Peer<A, M>, inv: (C, A) -> bool,
                                                      a0: A, up: seq<M>, k: nat)
    requires k < |up|
  {
    exists n: nat, given, c, a ::
      inv(c, a) && client.act(c) == Send(up[k]) && agent.act(a).Recv? && Traces(agent, a0, n, up[..k], given, a)
  }

  ghost predicate HandedDown<C(!new), A(!new), M>(agent: Peer<A, M>, inv: (C, A) -> bool, m: M)
  {
    exists c, a :: inv(c, a) && agent.act(a) == Send(m)
  }

  lemma HandedLater<C(!new), A(!new), M(!new)>(client: Peer<C, M>, agent: Peer<A, M>, inv: (C, A) -> bool,
                                               c: C, a: A, up: seq<M>, k: nat)
    requires inv(c, a) && CanMeet(client, agent, c, a) && k < |up|
    requires HandedUp(client, agent, inv, Meet(client, agent, c, a).1, up, k)
    ensures if client.act(c).Send? then HandedUp(client, agent, inv, a, [client.act(c).msg] + up, k + 1)
            else HandedUp(client, agent, inv, a, up, k)
  {
    var (c1, a1) := Meet(client, agent, c, a);
    var n: nat, given, c2, a2 :|
      inv(c2, a2) && client.act(c2) == Send(up[k]) && agent.act(a2).Recv? && Traces(agent, a1, n, up[..k], given, a2);
    if client.act(c).Send? {
      var more := [client.act(c).msg] + up;
      assert more[..k + 1][1..] == up[..k];
      assert Traces(agent, a, n + 1, more[..k + 1], given, a2);
    } else {
      assert ([agent.act(a).msg] + given)[1..] == given;
      assert Traces(agent, a, n + 1, up[..k], [agent.act(a).msg] + given, a2);
    }
  }

  /** A completed conversation, as the two traces of its peers. */
  lemma {:induction false} RunsGiveTraces<C(!new), A(!new), M(!new)>(client: Peer<C, M>, agent: Peer<A, M>, inv: (C, A) -> bool,
                                                   c: C, a: A, n: nat, c1: C, a1: A) returns (up: seq<M>, down: seq<M>)
    requires Runs(client, agent, inv, c, a, n, c1, a1)
    ensures Traces(client, c, n, down, up, c1) && Traces(agent, a, n, up, down, a1)
    ensures forall k | 0 <= k < |up| :: HandedUp(client, agent, inv, a, up, k)
    ensures forall m <- down :: HandedDown(agent, inv, m)
  {
    hide HandedUp, HandedDown;
    if n == 0 {
      up, down := [], [];
    } else {
      var (c2, a2) := Meet(client, agent, c, a);
      var up2, down2 := RunsGiveTraces(client, agent, inv, c2, a2, n - 1, c1, a1);
      if client.act(c).Send? {
        up, down := [client.act(c).msg] + up2, down2;
        assert up[1..] == up2;
        HandedNow(client, agent, inv, c, a, up);
      } else {
        up, down := up2, [agent.act(a).msg] + down2;
        assert down[1..] == down2;
        HandedDownNow(agent, inv, c, a, agent.act(a).msg);
      }
      forall k | 0 <= k < |up| ensures HandedUp(client, agent, inv, a, up, k) {
        if !client.act(c).Send? {
          HandedLater(client, agent, inv, c, a, up2, k);
        } else if k > 0 {
          HandedLater(client, agent, inv, c, a, up2, k - 1);
        }
      }
    }
  }

  lemma HandedNow<C(!new), A(!new), M(!new)>(client: Peer<C, M>, agent: Peer<A, M>, inv: (C, A) -> bool, c: C, a: A, up: seq<M>)
    requires inv(c, a) && up != [] && client.act(c) == Send(up[0]) && agent.act(a).Recv?
    ensures HandedUp(client, agent, inv, a, up, 0)
  {
    assert Traces(agent, a, 0, up[..0], [], a);
  }

  lemma HandedDownNow<C(!new), A(!new), M>(agent: Peer<A, M>, inv: (C, A) -> bool, c: C, a: A, m: M)
    requires inv(c, a) && agent.act(a) == Send(m)
    ensures HandedDown(agent, inv, m)
  {}
}
