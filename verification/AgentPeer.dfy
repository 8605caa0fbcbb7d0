/** The agent of src/agent.rs as a peer: `serve`, `serve_sync` and `serve_fetch`,
  * frame by frame. */
module AgentPeer {
  import opened Bytes
  import opened Paths
  import opened Signatures
  import opened FileTree
  import opened SyncPlan
  import opened Session
  import DeltaEncoder
  import Framing

  datatype Msg =
    | Hello
    | SyncReq(ex: seq<Path>)
    | Listing(entries: seq<Meta>)
    | Mkdir(paths: seq<Path>)
    | SigReq(paths: seq<Path>)
    | Sig(reply: SigReply)
    | PutFrame(put: Put)
    | Delete(paths: seq<Path>)
    | PlanDone
    | FetchReq(rels: seq<string>)
    | FetchSig(basis: BasisSig)
    | Fetched(answer: Answer)
    | DoneFrame
    | Quit
    | ErrorFrame

  /** The client's signature of its own copy of a requested file. */
  datatype BasisSig = BasisSig(rel: string, blockLen: nat, data: seq<byte>)

  /** The header and data of a FETCHED frame. */
  datatype Answer = Answer(rel: string, there: bool, delta: bool, blockLen: nat, len: nat, mtime: int, data: seq<byte>)

  // ----- one answer of `serve_fetch` -----

  /** What `read_no_follow` finds below the root. */
  datatype Found = Found(content: seq<byte>, mtime: int) | Missing | Refused

  /** Something else than a directory lies above `p`: opening it fails otherwise than
    * with "not found", or goes through a link. */
  predicate Blocked(t: Tree, p: Path)
  {
    exists i | 0 <= i < |p| :: p[..i] in t && !t[p[..i]].Dir?
  }

  function Look(t: Tree, p: Path): Found
  {
    if p in t then
      match t[p]
      case File(content, mtime) => Found(content, if mtime < 0 then 0 else mtime)
      case _ => Refused
    else if Blocked(t, p) then Refused
    else Missing
  }

  function LookUnder(t: Tree, rel: string): Found
  {
    match ResolveUnder(rel)
    case None => Refused
    case Some(p) => Look(t, p)
  }

  /** A file is found with its content and the time since 1970; it is missing exactly if
    * nothing is there and only directories above; the rest is an error. */
  lemma LookExactly(t: Tree, rel: string)
    ensures var r := LookUnder(t, rel);
            match ResolveUnder(rel)
            case None => r == Refused
            case Some(p) =>
              && (r == Missing <==> p !in t && forall q | q in t && IsPrefix(q, p) :: t[q].Dir?)
              && (r.Found? <==> p in t && t[p].File?)
              && (r.Found? ==> r.content == t[p].content && r.mtime >= 0 && (t[p].mtime >= 0 ==> r.mtime == t[p].mtime) &&
                               (t[p].mtime < 0 ==> r.mtime == 0))
  {
    hide ResolveUnder;
    match ResolveUnder(rel)
    case None =>
    case Some(p) =>
      if Blocked(t, p) {
        var i :| 0 <= i < |p| && p[..i] in t && !t[p[..i]].Dir?;
        assert IsPrefix(p[..i], p);
      } else if p !in t {
        forall q | q in t && IsPrefix(q, p) ensures t[q].Dir? {
          assert q != p && |q| < |p| && q == p[..|q|];
        }
      }
  }

  type BasisTable = map<string, (nat, seq<BlockSig>)>

  /** A FETCH_SIG frame; an empty one says that there is nothing to build on. */
  function KeepBasis(table: BasisTable, m: BasisSig): Option<BasisTable>
  {
    if m.data == [] then Some(table)
    else
      match ParseSig(m.data)
      case Err(_) => None
      case Ok(sigs) => Some(table[m.rel := (m.blockLen, sigs)])
  }

  /** The answer for one requested file, or None for an error. */
  function AnswerFor(f: Digest, t: Tree, rel: string, table: BasisTable): Option<Answer>
  {
    match LookUnder(t, rel)
    case Refused => None
    case Missing => Some(Answer(rel, false, false, 0, 0, 0, []))
    case Found(data, mtime) =>
      var full := Answer(rel, true, false, 0, |data|, mtime, data);
      if rel in table then
        var (bl, sigs) := table[rel];
        if !LegalBlockLen(bl) then None
        else
          var d := DeltaEncoder.DeltaOf(f, data, sigs, bl);
          if |d| < |data| then Some(full.(delta := true, blockLen := bl, data := d)) else Some(full)
      else Some(full)
  }

  /** A FETCH_SIG frame is an error exactly if it has no whole records; an empty one
    * changes nothing, another one is entered. */
  lemma KeepExactly(table: BasisTable, m: BasisSig)
    ensures var r := KeepBasis(table, m);
            && (r.None? <==> |m.data| % 32 != 0)
            && (r.Some? && m.data == [] ==> r.value == table)
            && (r.Some? && m.data != [] ==>
                  && r.value.Keys == table.Keys + {m.rel}
                  && r.value[m.rel].0 == m.blockLen && SigBytes(r.value[m.rel].1) == m.data
                  && forall q | q in table && q != m.rel :: r.value[q] == table[q])
  {
    if |m.data| % 32 == 0 { SigWireRoundTrip(m.data); }
  }

  /** An answer is refused exactly if the file cannot be read or the table has an illegal
    * block length for it; a file that is there is answered with its length, its time
    * and the shorter of its content and the delta. */
  lemma AnswerExactly(f: Digest, t: Tree, rel: string, table: BasisTable)
    ensures var r, found := AnswerFor(f, t, rel, table), LookUnder(t, rel);
            && (r.None? <==> found.Refused? || (found.Found? && rel in table && !(0 < table[rel].0 <= 0x10_0000)))
            && (r.Some? ==>
                  var a := r.value;
                  && a.rel == rel && (a.there <==> found.Found?) && (!a.there ==> a.data == [])
                  && (a.there ==>
                        var content := found.content;
                        && a.len == |content| && a.mtime == found.mtime
                        && if rel in table && |DeltaEncoder.DeltaOf(f, content, table[rel].1, table[rel].0)| < |content| then
                             a.delta && a.blockLen == table[rel].0 &&
                             a.data == DeltaEncoder.DeltaOf(f, content, table[rel].1, table[rel].0)
                           else !a.delta && a.data == content))
  {
    hide DeltaEncoder.DeltaOf, LookUnder;
  }

  // ----- the agent -----

  /** The remote side: its digest, its clock and the order of its directory walk. */
  datatype World = World(f: Digest, now: nat, walk: (Tree, seq<Path>) -> seq<Meta>)

  datatype AgentState =
    | Greeting(tree: Tree)
    | Idle(tree: Tree)
    | ToList(tree: Tree, ex: seq<Path>)
    | Serving(tree: Tree)
    | Signing(tree: Tree, todo: seq<Path>)
    | Gathering(tree: Tree, rels: seq<string>, left: nat, table: BasisTable)
    | Fetching(tree: Tree, rels: seq<string>, table: BasisTable)
    | Finishing(tree: Tree)
    | Failing(tree: Tree)
    | Closed(tree: Tree)

  function AgentAct(w: World, s: AgentState): Act<Msg>
  {
    match s
    case Greeting(_) => Send(Hello)
    case ToList(t, ex) => Send(Listing(w.walk(t, ex)))
    case Signing(t, todo) => if todo == [] then Recv else Send(Sig(AgentSig(w.f, t, todo[0])))
    case Fetching(t, rels, table) =>
      if rels == [] then Recv
      else
        (match AnswerFor(w.f, t, rels[0], table)
         case Some(answer) => Send(Fetched(answer))
         case None => Send(ErrorFrame))
    case Finishing(_) => Send(DoneFrame)
    case Failing(_) => Send(ErrorFrame)
    case Closed(_) => Stop
    case _ => Recv
  }

  // ----- sizes -----

  /** The data of a frame leave room for its header. */
  predicate DataFits(m: Msg)
  {
    match m
    case Sig(reply) => |reply.data| <= Framing.MAX_DATA
    case PutFrame(put) => |put.data| <= Framing.MAX_DATA
    case FetchSig(basis) => |basis.data| <= Framing.MAX_DATA
    case Fetched(answer) => |answer.data| <= Framing.MAX_DATA
    case _ => true
  }

  /** So do those of the frame that the agent sends next. */
  ghost predicate NextFits(f: Digest, s: AgentState)
  {
    match s
    case Signing(t, todo) => todo != [] ==> |AgentSig(f, t, todo[0]).data| <= Framing.MAX_DATA
    case Fetching(t, rels, table) =>
      rels != [] && AnswerFor(f, t, rels[0], table).Some? ==>
        |AnswerFor(f, t, rels[0], table).value.data| <= Framing.MAX_DATA
    case _ => true
  }

  lemma NextFrameFits(w: World, s: AgentState)
    requires NextFits(w.f, s) && AgentAct(w, s).Send?
    ensures DataFits(AgentAct(w, s).msg)
  {
    hide AnswerFor, AgentSig;
  }

  function AgentSent(w: World, s: AgentState): AgentState
  {
    match s
    case Greeting(t) => Idle(t)
    case ToList(t, _) => Serving(t)
    case Signing(t, todo) => if |todo| <= 1 then Serving(t) else Signing(t, todo[1..])
    case Fetching(t, rels, table) =>
      if rels == [] then s
      else if AnswerFor(w.f, t, rels[0], table).None? then Closed(t)
      else FetchNext(t, rels[1..], table)
    case Finishing(t) => Idle(t)
    case Failing(t) => Closed(t)
    case _ => s
  }

  function FetchNext(t: Tree, rels: seq<string>, table: BasisTable): AgentState
  {
    if rels == [] then Finishing(t) else Fetching(t, rels, table)
  }

  /** The signatures still to come, and then the files. */
  function GatherNext(t: Tree, rels: seq<string>, left: nat, table: BasisTable): AgentState
  {
    if left == 0 then FetchNext(t, rels, table) else Gathering(t, rels, left, table)
  }

  /** A file operation that fails ends the sync with an ERROR frame. */
  function Served(r: Fs): AgentState
  {
    if r.outcome.Done? then Serving(r.tree) else Failing(r.tree)
  }

  function AgentGot(w: World, s: AgentState, m: Msg): AgentState
  {
    match s
    case Idle(t) =>
      (match m
       case SyncReq(ex) => ToList(t, ex)
       case FetchReq(rels) => GatherNext(t, rels, |rels|, map[])
       case Quit => Closed(t)
       case _ => Failing(t))
    case Serving(t) =>
      (match m
       case Mkdir(ps) => Served(CreateAll(t, ps))
       case SigReq(ps) => if ps == [] then s else Signing(t, ps)
       case PutFrame(put) => Served(ApplyPut(t, put, w.now))
       case Delete(ps) => Serving(DeleteAll(t, ps))
       case PlanDone => Finishing(t)
       case _ => Failing(t))
    case Gathering(t, rels, left, table) =>
      (match m
       case FetchSig(basis) =>
         (match KeepBasis(table, basis)
          case Some(more) => if left == 0 then s else GatherNext(t, rels, left - 1, more)
          case None => Failing(t))
       case _ => Failing(t))
    case _ => Failing(s.tree)
  }

  function Agent(w: World): Peer<AgentState, Msg>
  {
    Peer((s: AgentState) => AgentAct(w, s), (s: AgentState) => AgentSent(w, s), (s: AgentState, m: Msg) => AgentGot(w, s, m))
  }

  /** The frames that the agent handles where it waits for one. */
  predicate Expected(s: AgentState, m: Msg)
  {
    match s
    case Idle(_) => m.SyncReq? || m.FetchReq? || m.Quit?
    case Serving(_) => m.Mkdir? || m.SigReq? || m.PutFrame? || m.Delete? || m.PlanDone?
    case Gathering(_, _, _, _) => m.FetchSig?
    case _ => false
  }

  /** Any other frame, a file operation that fails and a signature without whole records
    * leave the tree as the operation left it, bring an ERROR frame and end the agent;
    * nothing else does. */
  lemma OnlyErrorsEndIt(w: World, s: AgentState, m: Msg)
    requires AgentAct(w, s).Recv? && (s.Gathering? ==> s.left > 0)
    ensures var n := AgentGot(w, s, m);
            && (n.Failing? <==>
                  || !Expected(s, m)
                  || (m.Mkdir? && CreateAll(s.tree, m.paths).outcome != Done)
                  || (m.PutFrame? && ApplyPut(s.tree, m.put, w.now).outcome != Done)
                  || (m.FetchSig? && |m.basis.data| % 32 != 0))
            && (n.Failing? ==> AgentAct(w, n) == Send(ErrorFrame) && AgentAct(w, AgentSent(w, n)) == Stop)
            && n.tree == (if s.Serving? && m.Mkdir? then CreateAll(s.tree, m.paths).tree
                          else if s.Serving? && m.PutFrame? then ApplyPut(s.tree, m.put, w.now).tree
                          else if s.Serving? && m.Delete? then DeleteAll(s.tree, m.paths)
                          else s.tree)
  {
    hide CreateAll, ApplyPut, DeleteAll, KeepBasis;
    if m.FetchSig? && s.Gathering? {
      KeepExactly(s.table, m.basis);
    }
  }
}
