/** The loops of `Agent::start`, `Agent::sync` and `Agent::quit` in src/agent.rs: they
  * follow the client's peer. */
module SyncClient {
  import opened Bytes
  import opened Paths
  import opened Signatures
  import opened FileTree
  import opened SyncPlan
  import opened Session
  import opened AgentPeer
  import opened SyncProtocol
  import DeltaEncoder
  import DeltaOps
  import Framing

  ghost predicate RepliesFit(inbox: seq<Msg>)
  {
    forall m <- inbox :: m.Sig? ==> |m.reply.data| <= Framing.MAX_FRAME
  }

  ghost predicate Follows(side: Side, n: nat, taken: seq<Msg>, given: seq<Msg>, s: ClientState)
  {
    Traces(Client(side), AwaitHello, n, taken, given, s)
  }

  lemma Takes(side: Side, n: nat, inbox: seq<Msg>, k: nat, given: seq<Msg>, s: ClientState)
    requires k < |inbox| && Follows(side, n, inbox[..k], given, s) && ClientAct(s).Recv?
    ensures Follows(side, n + 1, inbox[..k + 1], given, ClientGot(side, s, inbox[k]))
  {
    TracesRecv(Client(side), AwaitHello, n, inbox[..k], given, s, inbox[k]);
    assert inbox[..k] + [inbox[k]] == inbox[..k + 1];
  }

  /** A queue goes out frame by frame. */
  lemma {:induction false} QueueGoes(side: Side, n: nat, taken: seq<Msg>, given: seq<Msg>, queue: seq<Msg>, next: Next)
    requires Follows(side, n, taken, given, SendThen(side, queue, next))
    ensures Follows(side, n + |queue|, taken, given + queue, After(side, next))
    decreases |queue|
  {
    hide After;
    if queue == [] {
      assert given + queue == given;
    } else {
      TracesSend(Client(side), AwaitHello, n, taken, given, Sending(queue, next));
      QueueGoes(side, n + 1, taken, given + [queue[0]], queue[1..], next);
      assert given + [queue[0]] + queue[1..] == given + queue;
    }
  }

  // ----- signatures -----

  ghost predicate TableFits(table: SigTable)
  {
    forall p | p in table :: |table[p].1| <= DeltaOps.U32_LIMIT
  }

  /** The body of the loop over the files to be sent. */
  method Gather(table: SigTable, wanted: Path, reply: SigReply, remote: Entries) returns (r: Option<SigTable>)
    requires TableFits(table) && |reply.data| <= Framing.MAX_FRAME
    ensures r == GatherOne(table, wanted, reply, remote) && (r.Some? ==> TableFits(r.value))
  {
    if reply.data == [] {
      return Some(table);
    }
    var listed := if wanted in remote then remote[wanted].len else 0;
    if !SigSizeOk(listed, HdrBlockLen(reply.blockLen), |reply.data|) {
      return None;
    }
    var sigs := SigFromBytes(reply.data);
    if sigs.Err? {
      return None;
    }
    assert |SigBytes(sigs.value)| == |reply.data|;
    return Some(table[reply.path := (reply.blockLen, sigs.value)]);
  }

  // ----- files -----

  /** The body of the loop over the entries to be sent. */
  method MakePut(h: StrongHash, local: Tree, m: Meta, table: SigTable) returns (r: Option<Put>)
    requires TableFits(table)
    ensures r == PutFor(DigestOf(h), local, m, table)
    ensures IsFrameOf(DigestOf(h), local, m, table, r)
  {
    hide DeltaEncoder.DeltaOf;
    PutExactly(DigestOf(h), local, m, table);
    var full := Put(m.path, m.kind, m.link, m.mtime, false, 0, m.len, []);
    if !m.kind.KFile? {
      return Some(full);
    }
    match ReadForSend(local, m)
    case None => return None;
    case Some(data) =>
      if m.path in table {
        var (bl, sigs) := table[m.path];
        if !LegalBlockLen(bl) {
          return None;
        }
        var d := DeltaEncoder.Delta(h, data, sigs, bl);
        if |d| < |data| {
          return Some(full.(delta := true, blockLen := bl, data := d));
        }
      }
      return Some(full.(data := data));
  }

  lemma {:induction false} PutsForMore(f: Digest, local: Tree, sends: seq<Meta>, table: SigTable, k: nat)
    requires k < |sends| && PutsFor(f, local, sends[..k], table).1
    ensures var (puts, _) := PutsFor(f, local, sends[..k], table);
            match PutFor(f, local, sends[k], table)
            case Some(put) => PutsFor(f, local, sends[..k + 1], table) == (puts + [put], true)
            case None => PutsFor(f, local, sends, table) == (puts, false)
    decreases k
  {
    hide PutFor;
    if put :| PutFor(f, local, sends[k], table) == Some(put) {
      if k == 0 {
        assert [put] + [] == [] + [put] && sends[..1][1..] == [];
      } else {
        var rest, first := PutsFor(f, local, sends[1..][..k - 1], table).0, PutFor(f, local, sends[0], table).value;
        assert [first] + rest + [put] == [first] + (rest + [put]);
      }
    }
    if k > 0 {
      assert sends[..k][1..] == sends[1..][..k - 1] && sends[..k + 1][1..] == sends[1..][..k];
      PutsForMore(f, local, sends[1..], table, k - 1);
    }
  }

  lemma {:induction false} CountMore(ms: seq<Meta>, m: Meta)
    ensures CountFiles(ms + [m]) == CountFiles(ms) + if m.kind.KFile? then 1 else 0
  {
    if ms == [] {
      assert [m][1..] == [];
    } else {
      assert (ms + [m])[1..] == ms[1..] + [m];
      CountMore(ms[1..], m);
    }
  }

  /** The loop over the entries to be sent: the frames, and how many files they are. */
  method SendFiles(h: StrongHash, local: Tree, sends: seq<Meta>, table: SigTable)
    returns (puts: seq<Put>, files: nat, ok: bool)
    requires TableFits(table)
    ensures (puts, ok) == PutsFor(DigestOf(h), local, sends, table)
    ensures ok ==> files == CountFiles(sends)
    ensures |puts| <= |sends| && (ok <==> |puts| == |sends|)
    ensures forall i | 0 <= i < |puts| :: IsFrameOf(DigestOf(h), local, sends[i], table, Some(puts[i]))
    ensures !ok ==> IsFrameOf(DigestOf(h), local, sends[|puts|], table, None)
  {
    hide PutFor, IsFrameOf;
    PutsExactly(DigestOf(h), local, sends, table);
    puts, files := [], 0;
    for k := 0 to |sends|
      invariant PutsFor(DigestOf(h), local, sends[..k], table) == (puts, true)
      invariant files == CountFiles(sends[..k])
    {
      PutsForMore(DigestOf(h), local, sends, table, k);
      CountMore(sends[..k], sends[k]);
      assert sends[..k] + [sends[k]] == sends[..k + 1];
      var put := MakePut(h, local, sends[k], table);
      if put.None? {
        return puts, files, false;
      }
      puts := puts + [put.value];
      if sends[k].kind.KFile? {
        files := files + 1;
      }
    }
    assert sends[..|sends|] == sends;
    ok := true;
  }

  // ----- the conversation -----

  /** How a sync ends for the client: with a count of files, with an error, or with the
    * channel closed under it. */
  datatype Ending = Synced(files: nat) | Errored | CutOff

  ghost predicate EndsIn(r: Ending, inbox: seq<Msg>, upTo: nat, s: ClientState)
  {
    match r
    case Synced(files) => s == Finished(files)
    case Errored => s == Broken
    case CutOff => upTo == |inbox| && ClientAct(s).Recv?
  }

  /** A file that looked unchanged: is its signature what it should be? */
  method Verify(f: Digest, local: Tree, m: Meta, reply: SigReply) returns (r: Option<bool>)
    ensures r == VerifyOne(f, local, m, reply)
  {
    var bl := HdrBlockLen(reply.blockLen);
    if reply.path != m.path || !LegalBlockLen(bl) {
      return None;
    }
    match ReadForSend(local, m)
    case None => return None;
    case Some(data) =>
      if !SigSizeOk(m.len, bl, |reply.data|) {
        return None;
      }
      var theirs := SigFromBytes(reply.data);
      if theirs.Err? {
        return None;
      }
      return Some(Signature(f, data, bl) != theirs.value);
  }

  /** The two loops over the SIG frames: None as ending if both have run through. */
  method Collect(side: Side, plan: Plan, remote: Entries, inbox: seq<Msg>, from: nat, given: seq<Msg>, ghost n0: nat)
    returns (upTo: nat, table: SigTable, changed: seq<Meta>, r: Option<Ending>, ghost n: nat, ghost s1: ClientState)
    requires from <= |inbox| && RepliesFit(inbox)
    requires Follows(side, n0, inbox[..from], given, Resume(side, plan, remote, 0, map[], []))
    ensures from <= upTo <= |inbox| && TableFits(table) && Follows(side, n, inbox[..upTo], given, s1)
    ensures if r.None? then s1 == StartPuts(side, plan, table, changed) else EndsIn(r.value, inbox, upTo, s1)
  {
    hide Follows, StartPuts, GatherOne, VerifyOne;
    upTo, table, changed, n, s1 := from, map[], [], n0, Resume(side, plan, remote, 0, map[], []);
    var k := |plan.sigWanted|;
    for i := 0 to |plan.sigWanted| + |plan.verify|
      invariant from <= upTo <= |inbox| && TableFits(table)
      invariant s1 == Resume(side, plan, remote, i, table, changed) && Follows(side, n, inbox[..upTo], given, s1)
    {
      if upTo == |inbox| {
        return upTo, table, changed, Some(CutOff), n, s1;
      }
      var m := inbox[upTo];
      assert m in inbox;
      Takes(side, n, inbox, upTo, given, s1);
      upTo, n, s1 := upTo + 1, n + 1, ClientGot(side, s1, m);
      if !m.Sig? {
        return upTo, table, changed, Some(Errored), n, s1;
      }
      if i < k {
        var more := Gather(table, plan.sigWanted[i], m.reply, remote);
        if more.None? {
          return upTo, table, changed, Some(Errored), n, s1;
        }
        table := more.value;
      } else {
        var differs := Verify(side.f, side.local, plan.verify[i - k], m.reply);
        if differs.None? {
          return upTo, table, changed, Some(Errored), n, s1;
        }
        if differs.value {
          changed := changed + [plan.verify[i - k]];
        }
        assert changed + [] == changed;
      }
    }
    r := None;
  }

  /** From the PUT frames to QUIT. */
  method Finish(side: Side, h: StrongHash, plan: Plan, table: SigTable, changed: seq<Meta>,
                inbox: seq<Msg>, from: nat, given: seq<Msg>, ghost n0: nat)
    returns (upTo: nat, outbox: seq<Msg>, r: Ending, ghost n: nat, ghost s1: ClientState)
    requires side.f == DigestOf(h) && TableFits(table) && from <= |inbox|
    requires Follows(side, n0, inbox[..from], given, StartPuts(side, plan, table, changed))
    ensures from <= upTo <= |inbox| && Follows(side, n, inbox[..upTo], outbox, s1) && EndsIn(r, inbox, upTo, s1)
  {
    hide Follows, PutsFor, CountFiles;
    var puts, files, ok := SendFiles(h, side.local, plan.sends + changed, table);
    var frames := seq(|puts|, i requires 0 <= i < |puts| => PutFrame(puts[i]));
    assert frames == PutFrames(puts);
    outbox, upTo := given + frames, from;
    if !ok {
      QueueGoes(side, n0, inbox[..from], given, frames, ThenBreak);
      return upTo, outbox, Errored, n0 + |frames|, Broken;
    }
    var closing := [];
    if plan.deletes != [] {
      closing := [Delete(plan.deletes)];
    }
    closing := closing + [PlanDone];
    assert closing == Closing(plan.deletes);
    outbox := given + (frames + closing);
    QueueGoes(side, n0, inbox[..from], given, frames + closing, ThenDone(files));
    n, s1 := n0 + |frames + closing|, AwaitDone(files);
    if upTo == |inbox| {
      return upTo, outbox, CutOff, n, s1;
    }
    Takes(side, n, inbox, upTo, outbox, s1);
    n, s1 := n + 1, ClientGot(side, s1, inbox[upTo]);
    upTo := upTo + 1;
    if !inbox[upTo - 1].DoneFrame? {
      return upTo, outbox, Errored, n, s1;
    }
    QueueGoes(side, n, inbox[..upTo], outbox, [Quit], ThenFinish(files));
    return upTo, outbox + [Quit], Synced(files), n + 1, Finished(files);
  }

  /** A run of the client: what it sends is what its peer sends to the last frame it
    * takes, and the result is what its peer comes to. */
  ghost predicate Ran(side: Side, inbox: seq<Msg>, n: nat, upTo: nat, outbox: seq<Msg>, r: Ending, s1: ClientState)
  {
    upTo <= |inbox| && Follows(side, n, inbox[..upTo], outbox, s1) && EndsIn(r, inbox, upTo, s1)
  }

  /** `start`, `sync` and `quit`, given everything that comes from the agent: the frames
    * sent and the result are those of the client's peer. */
  method Sync(side: Side, h: StrongHash, inbox: seq<Msg>)
    returns (upTo: nat, outbox: seq<Msg>, r: Ending, ghost n: nat, ghost s1: ClientState)
    requires side.f == DigestOf(h) && RepliesFit(inbox)
    ensures upTo <= |inbox| && (r.CutOff? ==> upTo == |inbox|)
    ensures Ran(side, inbox, n, upTo, outbox, r, s1)
  {
    hide StartPuts, PlanOf, MapOf, RepliesFit;
    upTo, outbox, r, n, s1 := 0, [], CutOff, 0, AwaitHello;
    assert inbox[..0] == [];
    if |inbox| == 0 {
      return;
    }
    hide Follows;
    Takes(side, n, inbox, 0, outbox, s1);
    upTo, n, s1 := 1, 1, ClientGot(side, s1, inbox[0]);
    if !inbox[0].Hello? {
      return upTo, outbox, Errored, n, s1;
    }
    QueueGoes(side, n, inbox[..1], outbox, [SyncReq(side.ex)], ThenList);
    outbox, n, s1 := outbox + [SyncReq(side.ex)], n + 1, AwaitList;
    if |inbox| == 1 {
      return upTo, outbox, CutOff, n, s1;
    }
    Takes(side, n, inbox, 1, outbox, s1);
    upTo, n, s1 := 2, n + 1, ClientGot(side, s1, inbox[1]);
    if !inbox[1].Listing? {
      return upTo, outbox, Errored, n, s1;
    }
    var plan := PlanSync(side.listing, inbox[1].entries, side.delete);
    var remote := EntriesOf(inbox[1].entries);
    var requests := [];
    if plan.mkdirs != [] {
      requests := [Mkdir(plan.mkdirs)];
    }
    if plan.sigWanted != [] || plan.verify != [] {
      requests := requests + [SigReq(plan.sigWanted + PathsOf(plan.verify))];
    }
    assert requests == Requests(plan);
    QueueGoes(side, n, inbox[..2], outbox, requests, ThenCollect(plan, remote));
    outbox, n := outbox + requests, n + |requests|;
    var table, changed, end;
    upTo, table, changed, end, n, s1 := Collect(side, plan, remote, inbox, 2, outbox, n);
    if end.Some? {
      return upTo, outbox, end.value, n, s1;
    }
    upTo, outbox, r, n, s1 := Finish(side, h, plan, table, changed, inbox, upTo, outbox, n);
  }
}
