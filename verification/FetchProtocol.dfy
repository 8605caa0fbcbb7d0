/** `Agent::fetch` of src/agent.rs as a peer, and what it achieves against the agent
  * in every interleaving. */
module FetchProtocol {
  import opened Bytes
  import opened Paths
  import opened Signatures
  import opened FileTree
  import opened Convergence
  import opened Session
  import opened AgentPeer
  import DeltaEncoder
  import DeltaOps
  import WireSizes

  // ----- names -----

  /** `basename`: what follows the last slash. */
  function Basename(rel: string): string
  {
    var pieces := Split(rel);
    pieces[|pieces| - 1]
  }

  /** It has no slash, and is the whole or follows one. */
  lemma BasenameIs(rel: string)
    ensures var name := Basename(rel);
            SLASH !in name && (name == rel || exists dir :: rel == dir + "/" + name)
  {
    hide Split, Join;
    var pieces := Split(rel);
    var n := |pieces| - 1;
    var dir, name := pieces[..n], pieces[n];
    JoinSplit(rel);
    JoinOne(name);
    assert pieces == dir + [name];
    if n > 0 {
      JoinTogether(dir, [name]);
      assert rel == Join(dir) + "/" + name;
    } else {
      assert pieces == [name];
    }
  }

  predicate Control(c: char)
  {
    c < ' ' || c == '\U{7F}'
  }

  /** `checked_basename` accepts it. */
  predicate Accepted(name: string)
  {
    name != "" && '\\' !in name && (forall c <- name :: !Control(c)) && name != "." && name != ".."
  }

  /** Accepted are exactly the names without control characters and backslashes that a
    * path can have. */
  lemma AcceptedIs(name: string)
    requires SLASH !in name
    ensures Accepted(name) <==> ValidName(name) && '\\' !in name && forall i | 0 <= i < |name| :: 32 <= name[i] as int != 127
  {
    if Accepted(name) {
      forall i | 0 <= i < |name| ensures !Control(name[i]) { assert name[i] in name; }
    } else {
      assert forall c | c in name :: exists i :: 0 <= i < |name| && name[i] == c;
    }
  }

  lemma {:induction false} NormalEnds(pieces: seq<string>)
    requires pieces != [] && forall i | 0 <= i < |pieces| :: SLASH !in pieces[i]
    requires Normal(pieces).Some?
    requires var last := pieces[|pieces| - 1]; last != "" && last != "."
    ensures var p := Normal(pieces).value; p != [] && p[|p| - 1] == pieces[|pieces| - 1]
  {
    if |pieces| == 1 {
      assert pieces[1..] == [];
      assert Normal([]) == Some([]);
    } else {
      NormalEnds(pieces[1..]);
    }
  }

  /** The name a fetched file gets is the last component of where it is fetched from. */
  lemma BasenameIsLast(rel: string)
    requires ResolveUnder(rel).Some? && Accepted(Basename(rel))
    ensures var p := ResolveUnder(rel).value; p != [] && p[|p| - 1] == Basename(rel)
    ensures ValidName(Basename(rel))
  {
    NormalEnds(Split(rel));
  }

  // ----- the client -----

  datatype FetchJob = FetchJob(f: Digest, rels: seq<string>, now: nat)

  /** What the client has locally below its destination directory. */
  datatype FetchState =
    | Opening(local: Tree)
    | Asking(local: Tree)
    | Basing(local: Tree, i: nat)
    | Receiving(local: Tree, i: nat, written: seq<string>)
    | Ending(local: Tree, written: seq<string>)
    | Leaving(local: Tree, written: seq<string>)
    | Over(local: Tree, written: seq<string>)
    | Broken(local: Tree)

  /** The signature of the local copy, if there is one to build on. */
  function BasisFor(f: Digest, local: Tree, rel: string): BasisSig
  {
    var copy := Basis(local, [Basename(rel)]);
    if copy == [] then BasisSig(rel, BLOCK_LEN, [])
    else
      var bl := BlockLenFor(|copy|);
      BasisSig(rel, bl, SigBytes(Signature(f, copy, bl)))
  }

  function FetchAct(j: FetchJob, s: FetchState): Act<Msg>
  {
    match s
    case Asking(_) => Send(FetchReq(j.rels))
    case Basing(local, i) => if i < |j.rels| then Send(FetchSig(BasisFor(j.f, local, j.rels[i]))) else Recv
    case Leaving(_, _) => Send(Quit)
    case Over(_, _) => Stop
    case Broken(_) => Stop
    case _ => Recv
  }

  function Await(j: FetchJob, local: Tree, i: nat, written: seq<string>): FetchState
  {
    if i >= |j.rels| then Ending(local, written) else Receiving(local, i, written)
  }

  function BaseNext(j: FetchJob, local: Tree, i: nat): FetchState
  {
    if i >= |j.rels| then Await(j, local, 0, []) else Basing(local, i)
  }

  function FetchSent(j: FetchJob, s: FetchState): FetchState
  {
    match s
    case Asking(local) => BaseNext(j, local, 0)
    case Basing(local, i) => if i < |j.rels| then BaseNext(j, local, i + 1) else s
    case Leaving(local, written) => Over(local, written)
    case _ => s
  }

  function AnswerContent(local: Tree, name: string, a: Answer): Option<seq<byte>>
  {
    if a.delta then DeltaOps.Patched(Basis(local, [name]), a.data, HdrBlockLen(a.blockLen), a.len) else Some(a.data)
  }

  /** A FETCHED frame: the file is skipped if it has vanished, else written. */
  function TakeAnswer(j: FetchJob, local: Tree, i: nat, written: seq<string>, a: Answer): FetchState
    requires i < |j.rels|
  {
    var name := Basename(j.rels[i]);
    if a.rel != j.rels[i] then Broken(local)
    else if !a.there then Await(j, local, i + 1, written)
    else if !Accepted(name) then Broken(local)
    else
      match AnswerContent(local, name, a)
      case None => Broken(local)
      case Some(content) =>
        var r := WriteFile(local, [name], content, a.mtime, j.now);
        if r.outcome.Done? then Await(j, r.tree, i + 1, written + [name]) else Broken(r.tree)
  }

  /** A FETCHED frame is refused exactly if it answers another request, or brings a file
    * with a name that is not accepted, with a delta that denotes nothing of its length,
    * or that cannot be written; otherwise a file that is there is written and named. */
  lemma TakeExactly(j: FetchJob, local: Tree, i: nat, written: seq<string>, a: Answer)
    requires i < |j.rels| && WellFormed(local)
    ensures var name := Basename(j.rels[i]);
            var r := TakeAnswer(j, local, i, written, a);
            var base := if [name] in local && local[[name]].File? then local[[name]].content else [];
            var bl := if a.blockLen == 0 then 32768 else a.blockLen;
            && (r.Broken? <==>
                  || a.rel != j.rels[i]
                  || (a.there &&
                        (!Accepted(name) || ([name] in local && local[[name]].Dir?) ||
                         (a.delta && !exists content :: DeltaOps.Denotes(base, a.data, bl, a.len, content)))))
            && (r.Broken? || !a.there ==> r.local == local)
            && (!r.Broken? ==> r == Await(j, r.local, i + 1, if a.there then written + [name] else written))
            && (!r.Broken? && a.there ==>
                  && [name] in r.local && r.local[[name]].File? && Nearest(r.local[[name]].mtime, a.mtime, j.now)
                  && if a.delta then DeltaOps.Denotes(base, a.data, bl, a.len, r.local[[name]].content)
                     else r.local[[name]].content == a.data)
  {
    hide DeltaOps.Patched, DeltaOps.Denotes, Accepted, WriteFile, Nearest, Basename;
    var name := Basename(j.rels[i]);
    DeltaOps.PatchedMeans(Basis(local, [name]), a.data, HdrBlockLen(a.blockLen), a.len);
    var content := AnswerContent(local, name, a);
    if a.rel == j.rels[i] && a.there && Accepted(name) && content.Some? {
      BasenameIs(j.rels[i]);
      AcceptedIs(name);
      WriteNamed(local, name, content.value, a.mtime, j.now);
    }
  }

  lemma WriteNamed(local: Tree, name: string, content: seq<byte>, mtime: int, now: nat)
    requires WellFormed(local) && ValidName(name)
    ensures var r := WriteFile(local, [name], content, mtime, now);
            && (r.outcome.Done? <==> !([name] in local && local[[name]].Dir?))
            && (r.outcome.Done? ==> Written(r.tree, [name], content, mtime, now))
            && (!r.outcome.Done? ==> r.tree == local)
  {
    var dest := [name];
    assert Parent(dest) == [] && ValidPath(dest);
    if !(dest in local && local[dest].Dir?) {
      WriteFileOk(local, dest, content, mtime, now);
    } else {
      PrefixIsDir(local, dest, []);
    }
  }

  function FetchGot(j: FetchJob, s: FetchState, m: Msg): FetchState
  {
    match s
    case Opening(local) => if m.Hello? then Asking(local) else Broken(local)
    case Receiving(local, i, written) =>
      if m.Fetched? && i < |j.rels| then TakeAnswer(j, local, i, written, m.answer) else Broken(local)
    case Ending(local, written) => if m.DoneFrame? then Leaving(local, written) else Broken(local)
    case _ => Broken(s.local)
  }

  /** A frame that the client is not waiting for ends its side and leaves its files alone. */
  lemma WrongAnswerBreaks(j: FetchJob, s: FetchState, m: Msg)
    requires FetchAct(j, s).Recv?
    ensures (match s
             case Opening(_) => !m.Hello?
             case Receiving(_, _, _) => !m.Fetched?
             case Ending(_, _) => !m.DoneFrame?
             case _ => true) ==>
              FetchGot(j, s, m) == Broken(s.local) && FetchAct(j, FetchGot(j, s, m)) == Stop
  {}

  function Fetcher(j: FetchJob): Peer<FetchState, Msg>
  {
    Peer((s: FetchState) => FetchAct(j, s), (s: FetchState) => FetchSent(j, s), (s: FetchState, m: Msg) => FetchGot(j, s, m))
  }

  // ----- what a fetch is for -----

  /** The file fetched for `rels[i]`, if it is there. */
  function Wanted(j: FetchJob, t: Tree, i: nat): Found
    requires i < |j.rels|
  {
    LookUnder(t, j.rels[i])
  }

  function Dest(j: FetchJob, i: nat): Path
    requires i < |j.rels|
  {
    [Basename(j.rels[i])]
  }

  /** The hypotheses: acceptable, distinct names; nothing unreadable at the remote;
    * local copies that are files; no collisions. */
  ghost predicate FetchSetup(j: FetchJob, t: Tree, local: Tree)
  {
    && WellFormed(local)
    && (forall i | 0 <= i < |j.rels| :: FileSetup(j, t, local, i))
    && (forall i, k | 0 <= i < k < |j.rels| :: Basename(j.rels[i]) != Basename(j.rels[k]))
  }

  ghost predicate FileSetup(j: FetchJob, t: Tree, local: Tree, i: nat)
    requires i < |j.rels|
  {
    var dest, found := Dest(j, i), Wanted(j, t, i);
    && Accepted(Basename(j.rels[i]))
    && !found.Refused?
    && (dest in local ==> local[dest].File?)
    && |Basis(local, dest)| < MAX_REMOTE_FILE
    && (found.Found? ==>
          Sendable(j.f, Basis(local, dest), found.content) && DeltaSafe(j.f, Basis(local, dest), found.content))
  }

  /** The destination directory when the first `k` answers have been dealt with: files
    * that are there have arrived, the rest is as it was. */
  ghost predicate Arrived(j: FetchJob, t: Tree, local: Tree, k: nat, now: Tree)
    requires k <= |j.rels|
  {
    && WellFormed(now)
    && (forall i | 0 <= i < k && Wanted(j, t, i).Found? ::
          Written(now, Dest(j, i), Wanted(j, t, i).content, Wanted(j, t, i).mtime, j.now))
    && (forall q | q in local && !Fresh(j, t, k, q) :: q in now && now[q] == local[q])
    && (forall q | q in now && q !in local :: q == [] || Fresh(j, t, k, q))
  }

  /** `q` is one of the first `k` destinations, and its file is there. */
  ghost predicate Fresh(j: FetchJob, t: Tree, k: nat, q: Path)
    requires k <= |j.rels|
  {
    exists i | 0 <= i < k :: q == Dest(j, i) && Wanted(j, t, i).Found?
  }

  /** The names written: those of the files that are there, in order. */
  function Names(j: FetchJob, t: Tree, k: nat): seq<string>
    requires k <= |j.rels|
  {
    if k == 0 then []
    else Names(j, t, k - 1) + if Wanted(j, t, k - 1).Found? then [Basename(j.rels[k - 1])] else []
  }

  function IsThere(j: FetchJob, t: Tree): string -> bool
  {
    (rel: string) => LookUnder(t, rel).Found?
  }

  function Basenames(rels: seq<string>): seq<string>
  {
    seq(|rels|, i requires 0 <= i < |rels| => Basename(rels[i]))
  }

  /** They are the basenames of the requested files that are there, in the order of the request. */
  lemma {:induction false} NamesPick(j: FetchJob, t: Tree, k: nat) returns (there: seq<string>)
    requires k <= |j.rels|
    ensures Picks(j.rels[..k], IsThere(j, t), there) && Names(j, t, k) == Basenames(there)
  {
    hide Picks, Basename;
    if k == 0 {
      there := [];
      PicksNothing(IsThere(j, t));
    } else {
      var rel := j.rels[k - 1];
      var before := NamesPick(j, t, k - 1);
      PicksNext(j.rels[..k - 1], IsThere(j, t), before, rel);
      assert j.rels[..k] == j.rels[..k - 1] + [rel];
      there := before + if IsThere(j, t)(rel) then [rel] else [];
    }
  }

  /** The signatures of the first `k` local copies. */
  function BasisAfter(j: FetchJob, local: Tree, k: nat): BasisTable
    requires k <= |j.rels|
  {
    if k == 0 then map[]
    else
      var rest, rel := BasisAfter(j, local, k - 1), j.rels[k - 1];
      var x := Basis(local, [Basename(rel)]);
      if x == [] then rest else rest[rel := (BlockLenFor(|x|), Signature(j.f, x, BlockLenFor(|x|)))]
  }

  lemma KeepStep(j: FetchJob, local: Tree, i: nat)
    requires i < |j.rels|
    ensures KeepBasis(BasisAfter(j, local, i), BasisFor(j.f, local, j.rels[i])) == Some(BasisAfter(j, local, i + 1))
  {
    var x := Basis(local, [Basename(j.rels[i])]);
    if x != [] {
      SigRoundTrip(Signature(j.f, x, BlockLenFor(|x|)));
      assert Signature(j.f, x, BlockLenFor(|x|)) != [];
    }
  }

  ghost predicate DistinctRels(j: FetchJob)
  {
    forall i, k | 0 <= i < k < |j.rels| :: j.rels[i] != j.rels[k]
  }

  lemma {:induction false} BasisAt(j: FetchJob, local: Tree, k: nat, i: nat)
    requires DistinctRels(j) && k <= |j.rels| && i < |j.rels|
    ensures var x := Basis(local, Dest(j, i));
            if i < k && x != [] then
              j.rels[i] in BasisAfter(j, local, k) &&
              BasisAfter(j, local, k)[j.rels[i]] == (BlockLenFor(|x|), Signature(j.f, x, BlockLenFor(|x|)))
            else j.rels[i] !in BasisAfter(j, local, k)
  {
    if k > 0 {
      hide BlockLenFor, Signature, Basis, Basename;
      BasisAt(j, local, k - 1, i);
    }
  }

  /** What a FETCHED frame must carry for `rels[i]`: whether the file is there, and then
    * its length, its time, and the shorter of its content and the delta. */
  ghost predicate AnswerCarries(j: FetchJob, t: Tree, local: Tree, i: nat, a: Answer)
    requires i < |j.rels|
  {
    var found := Wanted(j, t, i);
    && a.rel == j.rels[i] && (a.there <==> found.Found?)
    && (a.there ==>
          && a.len == |found.content| && a.mtime == found.mtime
          && GoesOut(j.f, Basis(local, Dest(j, i)), found.content, a.delta, a.blockLen, a.data))
  }

  /** The agent's answer rebuilds the file from the copy it was told about. */
  lemma AnswerIsRight(j: FetchJob, t: Tree, local: Tree, now: Tree, i: nat)
    requires FetchSetup(j, t, local) && i < |j.rels|
    requires Basis(now, Dest(j, i)) == Basis(local, Dest(j, i))
    ensures var r := AnswerFor(j.f, t, j.rels[i], BasisAfter(j, local, |j.rels|));
            && r.Some? && AnswerCarries(j, t, local, i, r.value) && |r.value.data| <= MAX_DATA
            && (r.value.there ==>
                  AnswerContent(now, Basename(j.rels[i]), r.value) == Some(Wanted(j, t, i).content))
  {
    hide WellFormed, LookUnder, BasisAfter, Basename, Accepted;
    assert DistinctRels(j);
    BasisAt(j, local, |j.rels|, i);
    assert FileSetup(j, t, local, i);
    var x, found := Basis(local, Dest(j, i)), Wanted(j, t, i);
    if x != [] && found.Found? {
      var bl := BlockLenFor(|x|);
      FewBlocks(|x|, bl);
      DeltaEncoder.DeltaRoundTrip(j.f, x, found.content, bl);
    }
  }

  /** The destination of a later answer is untouched. */
  lemma NotYet(j: FetchJob, t: Tree, local: Tree, k: nat, now: Tree)
    requires FetchSetup(j, t, local) && k < |j.rels| && Arrived(j, t, local, k, now)
    ensures Basis(now, Dest(j, k)) == Basis(local, Dest(j, k))
    ensures Dest(j, k) in now ==> now[Dest(j, k)].File?
    ensures !Fresh(j, t, k, Dest(j, k))
  {
    hide WellFormed, DeltaEncoder.WindowsFaithful, LookUnder, Basename;
    assert FileSetup(j, t, local, k);
    forall i | 0 <= i < k ensures Dest(j, i) != Dest(j, k) {
      assert Dest(j, i)[0] != Dest(j, k)[0];
    }
  }

  lemma FreshStep(j: FetchJob, t: Tree, k: nat, q: Path)
    requires k < |j.rels|
    ensures Fresh(j, t, k + 1, q) <==> Fresh(j, t, k, q) || (q == Dest(j, k) && Wanted(j, t, k).Found?)
  {}

  lemma ArrivedStep(j: FetchJob, t: Tree, local: Tree, k: nat, now: Tree)
    requires FetchSetup(j, t, local) && k < |j.rels| && Arrived(j, t, local, k, now)
    ensures Wanted(j, t, k).Missing? ==> Arrived(j, t, local, k + 1, now)
    ensures Wanted(j, t, k).Found? ==>
              var r := WriteFile(now, Dest(j, k), Wanted(j, t, k).content, Wanted(j, t, k).mtime, j.now);
              r.outcome.Done? && Arrived(j, t, local, k + 1, r.tree)
  {
    hide DeltaEncoder.WindowsFaithful, LookUnder, Basename, Accepted, WriteFile, Fresh;
    assert FileSetup(j, t, local, k);
    NotYet(j, t, local, k, now);
    forall q ensures Fresh(j, t, k + 1, q) <==> Fresh(j, t, k, q) || (q == Dest(j, k) && Wanted(j, t, k).Found?) {
      FreshStep(j, t, k, q);
    }
    var d := Dest(j, k);
    if Wanted(j, t, k).Found? {
      NameIsValid(j, t, local, k);
      assert Parent(d) == [];
      WriteFileOk(now, d, Wanted(j, t, k).content, Wanted(j, t, k).mtime, j.now);
      forall q ensures IsPrefix(q, d) <==> q == [] || q == d {
        PrefixOfParent(q, d);
      }
      forall i | 0 <= i < k ensures Dest(j, i) != d {
        assert Dest(j, i)[0] != d[0];
      }
    }
  }

  lemma NameIsValid(j: FetchJob, t: Tree, local: Tree, k: nat)
    requires FetchSetup(j, t, local) && k < |j.rels|
    ensures ValidPath(Dest(j, k)) && Accepted(Basename(j.rels[k]))
  {
    assert FileSetup(j, t, local, k);
  }

  /** The destination directory after `k` answers. */
  function LocalAfter(j: FetchJob, t: Tree, local: Tree, k: nat): Tree
    requires k <= |j.rels|
  {
    if k == 0 then local
    else
      var now := LocalAfter(j, t, local, k - 1);
      match Wanted(j, t, k - 1)
      case Found(content, mtime) => WriteFile(now, Dest(j, k - 1), content, mtime, j.now).tree
      case _ => now
  }

  lemma NothingArrived(j: FetchJob, t: Tree, local: Tree)
    requires FetchSetup(j, t, local)
    ensures Arrived(j, t, local, 0, local)
  {}

  lemma {:induction false} AllArrive(j: FetchJob, t: Tree, local: Tree, k: nat)
    requires FetchSetup(j, t, local) && k <= |j.rels|
    ensures Arrived(j, t, local, k, LocalAfter(j, t, local, k))
  {
    hide FetchSetup, Arrived, WriteFile, Fresh;
    NothingArrived(j, t, local);
    if k > 0 {
      AllArrive(j, t, local, k - 1);
      NotRefused(j, t, local, k - 1);
      ArrivedStep(j, t, local, k - 1, LocalAfter(j, t, local, k - 1));
    }
  }

  lemma NotRefused(j: FetchJob, t: Tree, local: Tree, k: nat)
    requires FetchSetup(j, t, local) && k < |j.rels|
    ensures !Wanted(j, t, k).Refused?
  {
    assert FileSetup(j, t, local, k);
  }

  // ----- the conversation -----

  /** The file answered next is a requested one, and the signatures are all there. */
  ghost predicate Answers(j: FetchJob, local: Tree, a: AgentState)
  {
    a.Fetching? && a.rels != [] ==>
      a.table == BasisAfter(j, local, |j.rels|) && exists i | 0 <= i < |j.rels| :: a.rels[0] == j.rels[i]
  }

  /** Neither peer has failed, the frames they send next fit, some of the files have
    * arrived and nothing else has changed on either side. */
  ghost predicate FetchWell(j: FetchJob, t: Tree, local: Tree, c: FetchState, a: AgentState)
  {
    && !c.Broken? && !a.Failing? && a.tree == t && NextFits(j.f, a) && Answers(j, local, a)
    && (FetchAct(j, c).Send? ==> DataFits(FetchAct(j, c).msg))
    && exists k | 0 <= k <= |j.rels| :: Arrived(j, t, local, k, c.local)
  }

  ghost function FetchInv(j: FetchJob, t: Tree, local: Tree): (FetchState, AgentState) -> bool
  {
    (c: FetchState, a: AgentState) => FetchWell(j, t, local, c, a)
  }

  ghost predicate Gets(j: FetchJob, t: Tree, local: Tree, w: World,
                       c: FetchState, a: AgentState, n: nat, c1: FetchState, a1: AgentState)
  {
    Runs(Fetcher(j), Agent(w), FetchInv(j, t, local), c, a, n, c1, a1)
  }

  lemma Then(j: FetchJob, t: Tree, local: Tree, w: World, c: FetchState, a: AgentState, n: nat,
             c1: FetchState, a1: AgentState, m: nat, c2: FetchState, a2: AgentState)
    requires Gets(j, t, local, w, c, a, n, c1, a1) && Gets(j, t, local, w, c1, a1, m, c2, a2)
    ensures Gets(j, t, local, w, c, a, n + m, c2, a2)
  {
    RunsAppend(Fetcher(j), Agent(w), FetchInv(j, t, local), c, a, n, c1, a1, m, c2, a2);
  }

  lemma Hand(j: FetchJob, t: Tree, local: Tree, w: World, c: FetchState, a: AgentState, c1: FetchState, a1: AgentState)
    requires CanMeet(Fetcher(j), Agent(w), c, a) && Meet(Fetcher(j), Agent(w), c, a) == (c1, a1)
    requires FetchWell(j, t, local, c, a) && FetchWell(j, t, local, c1, a1)
    ensures Gets(j, t, local, w, c, a, 1, c1, a1)
  {
    assert Runs(Fetcher(j), Agent(w), FetchInv(j, t, local), c1, a1, 0, c1, a1);
  }

  lemma Stay(j: FetchJob, t: Tree, local: Tree, w: World, c: FetchState, a: AgentState)
    requires FetchWell(j, t, local, c, a)
    ensures Gets(j, t, local, w, c, a, 0, c, a)
  {
    assert FetchInv(j, t, local)(c, a);
  }

  lemma WellAt(j: FetchJob, t: Tree, local: Tree, k: nat, c: FetchState, a: AgentState)
    requires FetchSetup(j, t, local) && k <= |j.rels| && c.local == LocalAfter(j, t, local, k)
    requires !c.Broken? && !a.Failing? && a.tree == t && NextFits(j.f, a) && Answers(j, local, a)
    requires FetchAct(j, c).Send? ==> DataFits(FetchAct(j, c).msg)
    ensures FetchWell(j, t, local, c, a)
  {
    AllArrive(j, t, local, k);
  }

  lemma BaseNextFits(j: FetchJob, t: Tree, local: Tree, i: nat)
    requires FetchSetup(j, t, local)
    ensures var c := BaseNext(j, local, i); FetchAct(j, c).Send? ==> DataFits(FetchAct(j, c).msg)
  {
    if i < |j.rels| {
      assert FileSetup(j, t, local, i);
      WireSizes.SigBytesFit(j.f, Basis(local, Dest(j, i)));
    }
  }

  lemma FetchNextFits(j: FetchJob, t: Tree, local: Tree, k: nat)
    requires FetchSetup(j, t, local) && k <= |j.rels|
    ensures var a := FetchNext(t, j.rels[k..], BasisAfter(j, local, |j.rels|)); NextFits(j.f, a) && Answers(j, local, a)
  {
    hide FetchSetup, BasisAfter, AnswerFor, Basis, LookUnder;
    if k < |j.rels| {
      AnswerIsRight(j, t, local, local, k);
      assert j.rels[k..][0] == j.rels[k];
    }
  }

  /** HELLO and FETCH_REQ. */
  lemma AskPhase(j: FetchJob, t: Tree, local: Tree, w: World)
    requires FetchSetup(j, t, local)
    ensures Gets(j, t, local, w, Opening(local), Greeting(t), 2,
                 BaseNext(j, local, 0), GatherNext(t, j.rels, |j.rels|, map[]))
  {
    hide FetchSetup, FetchWell, Gets, BasisFor;
    WellAt(j, t, local, 0, Opening(local), Greeting(t));
    WellAt(j, t, local, 0, Asking(local), Idle(t));
    var c, a := BaseNext(j, local, 0), GatherNext(t, j.rels, |j.rels|, map[]);
    BaseNextFits(j, t, local, 0);
    WellAt(j, t, local, 0, c, a);
    Hand(j, t, local, w, Opening(local), Greeting(t), Asking(local), Idle(t));
    Hand(j, t, local, w, Asking(local), Idle(t), c, a);
    Then(j, t, local, w, Opening(local), Greeting(t), 1, Asking(local), Idle(t), 1, c, a);
  }

  /** One FETCH_SIG frame per requested file. */
  lemma {:induction false} BasePhase(j: FetchJob, t: Tree, local: Tree, w: World, i: nat)
    requires FetchSetup(j, t, local) && i <= |j.rels|
    ensures Gets(j, t, local, w, BaseNext(j, local, i), GatherNext(t, j.rels, |j.rels| - i, BasisAfter(j, local, i)),
                 |j.rels| - i, Await(j, local, 0, []), FetchNext(t, j.rels, BasisAfter(j, local, |j.rels|)))
    decreases |j.rels| - i
  {
    hide FetchSetup, FetchWell, Gets, BasisFor, KeepBasis, BasisAfter, NextFits, DataFits, AnswerFor;
    var c, a := BaseNext(j, local, i), GatherNext(t, j.rels, |j.rels| - i, BasisAfter(j, local, i));
    BaseNextFits(j, t, local, i);
    FetchNextFits(j, t, local, 0);
    assert j.rels[0..] == j.rels;
    WellAt(j, t, local, 0, c, a);
    if i == |j.rels| {
      Stay(j, t, local, w, c, a);
    } else {
      KeepStep(j, local, i);
      var c1, a1 := BaseNext(j, local, i + 1), GatherNext(t, j.rels, |j.rels| - i - 1, BasisAfter(j, local, i + 1));
      BaseNextFits(j, t, local, i + 1);
      WellAt(j, t, local, 0, c1, a1);
      Hand(j, t, local, w, c, a, c1, a1);
      BasePhase(j, t, local, w, i + 1);
      Then(j, t, local, w, c, a, 1, c1, a1, |j.rels| - i - 1, Await(j, local, 0, []),
           FetchNext(t, j.rels, BasisAfter(j, local, |j.rels|)));
    }
  }

  /** The client's state after `k` answers, and the agent's. */
  function AfterAnswers(j: FetchJob, t: Tree, local: Tree, k: nat): FetchState
    requires k <= |j.rels|
  {
    Await(j, LocalAfter(j, t, local, k), k, Names(j, t, k))
  }

  function AfterFiles(j: FetchJob, t: Tree, local: Tree, k: nat): AgentState
    requires k <= |j.rels|
  {
    FetchNext(t, j.rels[k..], BasisAfter(j, local, |j.rels|))
  }

  /** Taking the answer is writing the file, or nothing. */
  lemma TakeStep(j: FetchJob, t: Tree, local: Tree, k: nat)
    requires FetchSetup(j, t, local) && k < |j.rels|
    ensures var r := AnswerFor(j.f, t, j.rels[k], BasisAfter(j, local, |j.rels|));
            r.Some? && TakeAnswer(j, LocalAfter(j, t, local, k), k, Names(j, t, k), r.value) == AfterAnswers(j, t, local, k + 1)
  {
    hide FetchSetup, AnswerFor, BasisAfter, WriteFile, Arrived, AnswerContent, Accepted, LookUnder, Basename, Basis;
    var now := LocalAfter(j, t, local, k);
    AllArrive(j, t, local, k);
    NotYet(j, t, local, k, now);
    AnswerIsRight(j, t, local, now, k);
    ArrivedStep(j, t, local, k, now);
    NotRefused(j, t, local, k);
    NameIsValid(j, t, local, k);
  }

  /** One FETCHED frame per requested file. */
  lemma {:induction false} FilePhase(j: FetchJob, t: Tree, local: Tree, w: World, k: nat)
    requires FetchSetup(j, t, local) && k <= |j.rels| && w.f == j.f
    ensures Gets(j, t, local, w, AfterAnswers(j, t, local, k), AfterFiles(j, t, local, k), |j.rels| - k,
                 AfterAnswers(j, t, local, |j.rels|), AfterFiles(j, t, local, |j.rels|))
    decreases |j.rels| - k
  {
    hide FetchSetup, FetchWell, Gets, AnswerFor, BasisAfter, TakeAnswer, LocalAfter, Names;
    var c, a := AfterAnswers(j, t, local, k), AfterFiles(j, t, local, k);
    FetchNextFits(j, t, local, k);
    WellAt(j, t, local, k, c, a);
    if k == |j.rels| {
      Stay(j, t, local, w, c, a);
    } else {
      TakeStep(j, t, local, k);
      var c1, a1 := AfterAnswers(j, t, local, k + 1), AfterFiles(j, t, local, k + 1);
      FetchNextFits(j, t, local, k + 1);
      WellAt(j, t, local, k + 1, c1, a1);
      assert j.rels[k..][0] == j.rels[k] && j.rels[k..][1..] == j.rels[k + 1..];
      Hand(j, t, local, w, c, a, c1, a1);
      FilePhase(j, t, local, w, k + 1);
      Then(j, t, local, w, c, a, 1, c1, a1, |j.rels| - k - 1,
           AfterAnswers(j, t, local, |j.rels|), AfterFiles(j, t, local, |j.rels|));
    }
  }

  /** DONE and QUIT. */
  lemma LeavePhase(j: FetchJob, t: Tree, local: Tree, w: World)
    requires FetchSetup(j, t, local)
    ensures var n := |j.rels|;
            Gets(j, t, local, w, AfterAnswers(j, t, local, n), AfterFiles(j, t, local, n), 2,
                 Over(LocalAfter(j, t, local, n), Names(j, t, n)), Closed(t))
  {
    hide FetchSetup, FetchWell, Gets, BasisAfter, LocalAfter, Names;
    var n := |j.rels|;
    var now, names := LocalAfter(j, t, local, n), Names(j, t, n);
    assert j.rels[n..] == [];
    WellAt(j, t, local, n, Ending(now, names), Finishing(t));
    WellAt(j, t, local, n, Leaving(now, names), Idle(t));
    WellAt(j, t, local, n, Over(now, names), Closed(t));
    Hand(j, t, local, w, Ending(now, names), Finishing(t), Leaving(now, names), Idle(t));
    Hand(j, t, local, w, Leaving(now, names), Idle(t), Over(now, names), Closed(t));
    Then(j, t, local, w, Ending(now, names), Finishing(t), 1, Leaving(now, names), Idle(t), 1, Over(now, names), Closed(t));
  }

  lemma FetchSucceeds(j: FetchJob, t: Tree, local: Tree, w: World)
    requires FetchSetup(j, t, local) && w.f == j.f
    ensures Completes(Fetcher(j), Agent(w), FetchInv(j, t, local), Opening(local), Greeting(t), 2 * |j.rels| + 4,
                      Over(LocalAfter(j, t, local, |j.rels|), Names(j, t, |j.rels|)), Closed(t))
  {
    hide FetchSetup, Gets, Completes, BasisAfter, AfterAnswers, AfterFiles, LocalAfter, Names, BaseNext, GatherNext, FetchNext,
      Await, FetchInv, Fetcher, Agent;
    var n := |j.rels|;
    AskPhase(j, t, local, w);
    BasePhase(j, t, local, w, 0);
    FilePhase(j, t, local, w, 0);
    LeavePhase(j, t, local, w);
    Beginnings(j, t, local);
    var c, a := BaseNext(j, local, 0), GatherNext(t, j.rels, n, map[]);
    Then(j, t, local, w, Opening(local), Greeting(t), 2, c, a, n, AfterAnswers(j, t, local, 0), AfterFiles(j, t, local, 0));
    Then(j, t, local, w, Opening(local), Greeting(t), n + 2, AfterAnswers(j, t, local, 0), AfterFiles(j, t, local, 0), n,
         AfterAnswers(j, t, local, n), AfterFiles(j, t, local, n));
    Then(j, t, local, w, Opening(local), Greeting(t), 2 * n + 2, AfterAnswers(j, t, local, n), AfterFiles(j, t, local, n), 2,
         Over(LocalAfter(j, t, local, n), Names(j, t, n)), Closed(t));
    GetsCompletes(j, t, local, w, 2 * n + 4, LocalAfter(j, t, local, n), Names(j, t, n));
  }

  lemma GetsCompletes(j: FetchJob, t: Tree, local: Tree, w: World, n: nat, now: Tree, names: seq<string>)
    requires Gets(j, t, local, w, Opening(local), Greeting(t), n, Over(now, names), Closed(t))
    ensures Completes(Fetcher(j), Agent(w), FetchInv(j, t, local), Opening(local), Greeting(t), n, Over(now, names), Closed(t))
  {}

  lemma Beginnings(j: FetchJob, t: Tree, local: Tree)
    ensures BasisAfter(j, local, 0) == map[]
    ensures AfterAnswers(j, t, local, 0) == Await(j, local, 0, [])
    ensures AfterFiles(j, t, local, 0) == FetchNext(t, j.rels, BasisAfter(j, local, |j.rels|))
  {
    assert j.rels[0..] == j.rels;
  }

  /** Fetching in every interleaving: frames never travel both ways at once and no peer
    * fails; at every step each destination holds its old content or the whole remote
    * file and nothing else has changed; the run ends, and then every file that is there
    * has arrived, whether whole or as a delta, and the names of exactly these are
    * reported. */
  lemma FetchInEveryInterleaving(j: FetchJob, t: Tree, local: Tree, w: World, room: nat,
                                 xs: seq<Config<FetchState, AgentState, Msg>>)
    requires FetchSetup(j, t, local) && w.f == j.f && room >= 1
    requires Execution(Fetcher(j), Agent(w), room, Opening(local), Greeting(t), xs)
    ensures var x, n := xs[|xs| - 1], |j.rels|;
            && (x.up == [] || x.down == []) && |xs| - 1 <= 4 * n + 8
            && !x.c.Broken? && !x.a.Failing? && x.a.tree == t
            && (exists k | 0 <= k <= n :: Arrived(j, t, local, k, x.c.local))
            && (Stuck(Fetcher(j), Agent(w), room, x) ==>
                  x.c.Over? && x.a.Closed? && x.up == [] && x.down == [] &&
                  Arrived(j, t, local, n, x.c.local) && x.c.written == Names(j, t, n))
  {
    hide FetchSetup, Arrived, LocalAfter, Names;
    FetchSucceeds(j, t, local, w);
    var n, inv := |j.rels|, FetchInv(j, t, local);
    EveryInterleaving(Fetcher(j), Agent(w), inv, Opening(local), Greeting(t), 2 * n + 4,
                      Over(LocalAfter(j, t, local, n), Names(j, t, n)), Closed(t), room, xs);
    AllArrive(j, t, local, n);
    var x := xs[|xs| - 1];
    var a :| inv(x.c, a);
    var c :| inv(c, x.a);
    assert FetchWell(j, t, local, x.c, a) && FetchWell(j, t, local, c, x.a);
  }
}
