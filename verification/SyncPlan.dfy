/** The client's side of a sync in src/agent.rs: the listing, the plan, the use of
  * the remote signatures and the PUT frames. */
module SyncPlan {
  import opened Bytes
  import opened Paths
  import opened Signatures
  import opened FileTree
  import DeltaEncoder

  const VERIFY_MAX := 0x10_0000

  // ----- listings -----

  /** One entry of a listing. Modification times before 1970 are listed as 0. */
  datatype Meta = Meta(path: Path, kind: Kind, len: nat, mtime: int, link: string)

  function Since1970(mtime: int): nat
  {
    if mtime < 0 then 0 else mtime
  }

  function MetaOf(p: Path, n: Node): (m: Meta)
    ensures m.path == p
  {
    match n
    case File(content, mtime) => Meta(p, KFile, |content|, Since1970(mtime), "")
    case Dir => Meta(p, KDir, 0, 0, "")
    case Link(target) => Meta(p, KLink, 0, 0, target)
  }

  /** The listing tells both times apart. */
  predicate SameTime(x: int, y: int)
  {
    x == y || (x <= 0 && y <= 0)
  }

  /** What a listing can tell: kind, length and time of a file, target of a link. */
  predicate Alike(l: Node, r: Node)
  {
    match l
    case File(content, mtime) => r.File? && |r.content| == |content| && SameTime(mtime, r.mtime)
    case Dir => r.Dir?
    case Link(target) => r == Link(target)
  }

  lemma AlikeMeans()
    ensures forall p, l, r :: SameEntry(MetaOf(p, l), MetaOf(p, r)) <==> Alike(l, r)
  {}

  /** A listed time is that of the file, or 0 if it is before 1970. */
  lemma MetaIs(p: Path, n: Node)
    ensures var m := MetaOf(p, n);
            && m.path == p && m.mtime >= 0
            && (n.Dir? <==> m.kind.KDir?) && (n.Link? <==> m.kind.KLink?)
            && (n.File? ==> m.len == |n.content| && (n.mtime >= 0 ==> m.mtime == n.mtime) && (n.mtime < 0 ==> m.mtime == 0))
            && (n.Link? ==> m.link == n.target)
  {}

  predicate Visible(p: Path, t: Tree, ex: seq<Path>)
  {
    p in t && p != [] && !Excluded(p, ex)
  }

  ghost predicate DistinctPaths(ls: seq<Meta>)
  {
    forall i, j | 0 <= i < j < |ls| :: ls[i].path != ls[j].path
  }

  ghost predicate Enumerates(ps: seq<Path>, t: Tree, ex: seq<Path>)
  {
    && (forall i, j | 0 <= i < j < |ps| :: ps[i] != ps[j])
    && (forall i | 0 <= i < |ps| :: Visible(ps[i], t, ex))
    && (forall p | Visible(p, t, ex) :: p in ps)
  }

  /** `ls` reports the paths `ps`, each under its slashed name. */
  ghost predicate Reports(ls: seq<Meta>, ps: seq<Path>, t: Tree)
  {
    |ls| == |ps| && forall i | 0 <= i < |ps| :: ps[i] in t && ls[i] == MetaOf(Shown(ps[i]), t[ps[i]])
  }

  /** What `walk` returns, in whatever order: every visible entry once. */
  ghost predicate Lists(ls: seq<Meta>, t: Tree, ex: seq<Path>)
  {
    exists ps :: Enumerates(ps, t, ex) && Reports(ls, ps, t)
  }

  /** A listing from which the tree can be told: distinct paths, and each the path of
    * the entry it describes. */
  ghost predicate Truthful(ls: seq<Meta>, t: Tree, ex: seq<Path>)
  {
    && DistinctPaths(ls)
    && (forall i | 0 <= i < |ls| :: Visible(ls[i].path, t, ex) && ls[i] == MetaOf(ls[i].path, t[ls[i].path]))
    && (forall p | Visible(p, t, ex) :: MetaOf(p, t[p]) in ls)
  }

  ghost predicate NoBackslash(t: Tree, ex: seq<Path>)
  {
    forall p | Visible(p, t, ex) :: Plain(p)
  }

  lemma PlainListing(ls: seq<Meta>, ps: seq<Path>, t: Tree, ex: seq<Path>)
    requires WellFormed(t) && Enumerates(ps, t, ex) && Reports(ls, ps, t) && NoBackslash(t, ex)
    ensures Truthful(ls, t, ex)
  {
    hide WellFormed, Visible, Shown;
    forall i | 0 <= i < |ls| ensures ls[i].path == ps[i] && ls[i] == MetaOf(ps[i], t[ps[i]]) {
      VisibleIsShown(ps[i], t, ex);
    }
    forall p | Visible(p, t, ex) ensures p in t && MetaOf(p, t[p]) in ls {
      var i :| 0 <= i < |ps| && ps[i] == p;
      assert ls[i] == MetaOf(p, t[p]);
    }
  }

  lemma VisibleIsShown(p: Path, t: Tree, ex: seq<Path>)
    requires WellFormed(t) && NoBackslash(t, ex) && Visible(p, t, ex)
    ensures p in t && Shown(p) == p
  {
    PlainIsShown(p);
  }

  lemma TruthfulIsPlain(ls: seq<Meta>, ps: seq<Path>, t: Tree, ex: seq<Path>)
    requires Reports(ls, ps, t) && Truthful(ls, t, ex)
    ensures NoBackslash(t, ex)
  {
    hide Visible, Shown;
    forall p | Visible(p, t, ex) ensures Plain(p) {
      VisibleIsIn(p, t, ex);
      var i :| 0 <= i < |ls| && ls[i] == MetaOf(p, t[p]);
      ShownIsPlain(ps[i]);
    }
  }

  lemma VisibleIsIn(p: Path, t: Tree, ex: seq<Path>)
    requires Visible(p, t, ex)
    ensures p in t
  {}

  /** A listing tells the tree if and only if no visible name has a backslash, which
    * the walk turns into a slash. */
  lemma TruthfulExactly(ls: seq<Meta>, t: Tree, ex: seq<Path>)
    requires WellFormed(t) && Lists(ls, t, ex)
    ensures Truthful(ls, t, ex) <==> NoBackslash(t, ex)
  {
    hide WellFormed, Enumerates, Reports, Truthful, NoBackslash;
    var ps :| Enumerates(ps, t, ex) && Reports(ls, ps, t);
    if NoBackslash(t, ex) {
      PlainListing(ls, ps, t, ex);
    }
    if Truthful(ls, t, ex) {
      TruthfulIsPlain(ls, ps, t, ex);
    }
  }

  lemma {:induction false} Enumeration(t: Tree, ex: seq<Path>, keys: set<Path>) returns (ps: seq<Path>)
    requires keys <= t.Keys
    ensures forall i, j | 0 <= i < j < |ps| :: ps[i] != ps[j]
    ensures forall p :: p in ps <==> p in keys && Visible(p, t, ex)
  {
    if keys == {} {
      ps := [];
    } else {
      var p :| p in keys;
      var rest := Enumeration(t, ex, keys - {p});
      ps := if Visible(p, t, ex) then rest + [p] else rest;
      forall i, j | 0 <= i < j < |ps| ensures ps[i] != ps[j] {
        if j == |rest| { assert rest[i] in rest; }
      }
    }
  }

  /** Every tree has a listing. */
  lemma ListingExists(t: Tree, ex: seq<Path>)
    ensures exists ls :: Lists(ls, t, ex)
  {
    hide Shown;
    var ps := Enumeration(t, ex, t.Keys);
    forall i | 0 <= i < |ps| ensures Visible(ps[i], t, ex) {
      assert ps[i] in ps;
    }
    assert Enumerates(ps, t, ex);
    var ls := seq(|ps|, i requires 0 <= i < |ps| => MetaOf(Shown(ps[i]), t[ps[i]]));
    assert Reports(ls, ps, t);
    assert Lists(ls, t, ex);
  }

  /** The hash map from path to entry. */
  function MapOf(ls: seq<Meta>): map<Path, Meta>
  {
    if ls == [] then map[]
    else
      var last := ls[|ls| - 1];
      MapOf(ls[..|ls| - 1])[last.path := last]
  }

  lemma LastIsNew(ls: seq<Meta>, n: nat)
    requires DistinctPaths(ls) && n + 1 == |ls|
    ensures DistinctPaths(ls[..n])
    ensures forall m <- ls[..n] :: m.path != ls[n].path
    ensures forall m :: m in ls <==> m in ls[..n] || m == ls[n]
  {
    forall m | m in ls[..n] ensures m.path != ls[n].path {
      var i :| 0 <= i < n && ls[..n][i] == m;
      assert ls[i] == m;
    }
    assert ls == ls[..n] + [ls[n]];
  }

  lemma {:induction false} MapOfMember(ls: seq<Meta>)
    requires DistinctPaths(ls)
    ensures forall p :: p in MapOf(ls) ==> MapOf(ls)[p] in ls && MapOf(ls)[p].path == p
    ensures forall m <- ls :: m.path in MapOf(ls) && MapOf(ls)[m.path] == m
  {
    hide DistinctPaths;
    if ls != [] {
      var n := |ls| - 1;
      LastIsNew(ls, n);
      MapOfMember(ls[..n]);
      assert MapOf(ls) == MapOf(ls[..n])[ls[n].path := ls[n]];
    }
  }

  /** Looking a path up in the map of a listing is looking at the tree. */
  lemma MapOfListing(ls: seq<Meta>, t: Tree, ex: seq<Path>)
    requires Truthful(ls, t, ex)
    ensures forall p :: p in MapOf(ls) <==> Visible(p, t, ex)
    ensures forall p :: p in MapOf(ls) ==> MapOf(ls)[p] == MetaOf(p, t[p])
  {
    MapOfMember(ls);
    forall p ensures p in MapOf(ls) <==> Visible(p, t, ex) {
      if p in MapOf(ls) {
        var i :| 0 <= i < |ls| && ls[i] == MapOf(ls)[p];
        assert ls[i].path == p;
      }
    }
    forall p | p in MapOf(ls) ensures MapOf(ls)[p] == MetaOf(p, t[p]) {
      assert MetaOf(p, t[p]) in ls;
    }
  }

  // ----- the plan -----

  predicate SameEntry(l: Meta, r: Meta)
  {
    l.kind == r.kind &&
    match l.kind
    case KFile => l.len == r.len && l.mtime == r.mtime
    case KLink => l.link == r.link
    case KDir => true
  }

  type Entries = map<Path, Meta>

  predicate NeedsMkdir(m: Meta, remote: Entries)
  {
    m.path !in remote && m.kind.KDir?
  }

  predicate NeedsSend(m: Meta, remote: Entries)
  {
    if m.path in remote then !SameEntry(m, remote[m.path]) else !m.kind.KDir?
  }

  predicate WantsSig(m: Meta, remote: Entries)
  {
    && m.path in remote && !SameEntry(m, remote[m.path])
    && m.kind.KFile? && remote[m.path].kind.KFile? && remote[m.path].len > 0
  }

  predicate NeedsVerify(m: Meta, remote: Entries)
  {
    m.path in remote && SameEntry(m, remote[m.path]) && m.kind.KFile? && 0 < m.len <= VERIFY_MAX
  }

  function Select(ls: seq<Meta>, keep: Meta -> bool): seq<Meta>
  {
    if ls == [] then []
    else
      var last := ls[|ls| - 1];
      Select(ls[..|ls| - 1], keep) + if keep(last) then [last] else []
  }

  function PathsOf(ms: seq<Meta>): (ps: seq<Path>)
    ensures |ps| == |ms|
  {
    seq(|ms|, i requires 0 <= i < |ms| => ms[i].path)
  }

  lemma {:induction false} SelectMember(ls: seq<Meta>, keep: Meta -> bool)
    ensures forall m :: m in Select(ls, keep) <==> m in ls && keep(m)
    ensures DistinctPaths(ls) ==> DistinctPaths(Select(ls, keep))
  {
    if ls != [] {
      var n := |ls| - 1;
      var rest := Select(ls[..n], keep);
      SelectMember(ls[..n], keep);
      assert ls == ls[..n] + [ls[n]];
      if DistinctPaths(ls) {
        assert DistinctPaths(ls[..n]);
        forall i | 0 <= i < |rest| ensures rest[i].path != ls[n].path {
          assert rest[i] in rest;
          var k :| 0 <= k < n && ls[k] == rest[i];
        }
      }
    }
  }

  /** Selecting keeps the order. */
  lemma {:induction false} SelectPicks(ls: seq<Meta>, keep: Meta -> bool)
    ensures Picks(ls, keep, Select(ls, keep))
  {
    if ls == [] {
      PicksNothing(keep);
    } else {
      var n := |ls| - 1;
      SelectPicks(ls[..n], keep);
      PicksNext(ls[..n], keep, Select(ls[..n], keep), ls[n]);
      assert ls == ls[..n] + [ls[n]];
    }
  }

  /** Of the entries with the same path the last one is found. */
  lemma {:induction false} MapOfLast(ls: seq<Meta>, i: nat)
    requires i < |ls| && forall k | i < k < |ls| :: ls[k].path != ls[i].path
    ensures ls[i].path in MapOf(ls) && MapOf(ls)[ls[i].path] == ls[i]
  {
    if i < |ls| - 1 {
      MapOfLast(ls[..|ls| - 1], i);
    }
  }

  lemma {:induction false} MapOfKeys(ls: seq<Meta>, p: Path)
    ensures p in MapOf(ls) <==> exists i :: 0 <= i < |ls| && ls[i].path == p
  {
    if ls != [] {
      var n := |ls| - 1;
      MapOfKeys(ls[..n], p);
      if i :| 0 <= i < n && ls[i].path == p { assert ls[..n][i].path == p; }
      if i :| 0 <= i < |ls[..n]| && ls[..n][i].path == p { assert ls[i].path == p; }
    }
  }

  datatype Plan = Plan(mkdirs: seq<Path>, sends: seq<Meta>, sigWanted: seq<Path>, verify: seq<Meta>, deletes: seq<Path>)

  function SendTest(remote: Entries): Meta -> bool { (m: Meta) => NeedsSend(m, remote) }
  function MkdirTest(remote: Entries): Meta -> bool { (m: Meta) => NeedsMkdir(m, remote) }
  function SigTest(remote: Entries): Meta -> bool { (m: Meta) => WantsSig(m, remote) }
  function VerifyTest(remote: Entries): Meta -> bool { (m: Meta) => NeedsVerify(m, remote) }
  function ExtraTest(local: Entries): Meta -> bool { (r: Meta) => r.path !in local }

  function PlanOf(local: seq<Meta>, remote: seq<Meta>, delete: bool): Plan
  {
    var rm := MapOf(remote);
    Plan(PathsOf(Select(local, MkdirTest(rm))),
         Select(local, SendTest(rm)),
         PathsOf(Select(local, SigTest(rm))),
         Select(local, VerifyTest(rm)),
         if delete then SortDeletes(PathsOf(Select(remote, ExtraTest(MapOf(local))))) else [])
  }

  method EntriesOf(ls: seq<Meta>) returns (entries: Entries)
    ensures entries == MapOf(ls)
  {
    entries := map[];
    for i := 0 to |ls|
      invariant entries == MapOf(ls[..i])
    {
      entries := entries[ls[i].path := ls[i]];
      assert ls[..i + 1][..i] == ls[..i];
    }
    assert ls[..|ls|] == ls;
  }

  lemma SelectStep(ls: seq<Meta>, i: nat, keep: Meta -> bool)
    requires i < |ls|
    ensures Select(ls[..i + 1], keep) == Select(ls[..i], keep) + if keep(ls[i]) then [ls[i]] else []
  {
    assert ls[..i + 1][..i] == ls[..i];
  }

  lemma PathsOfAppend(ms: seq<Meta>, m: Meta)
    ensures PathsOf(ms + [m]) == PathsOf(ms) + [m.path]
  {}

  /** The planning loops of `Agent::sync`. */
  method PlanSync(local: seq<Meta>, remote: seq<Meta>, delete: bool) returns (plan: Plan)
    ensures plan == PlanOf(local, remote, delete)
  {
    var rm := EntriesOf(remote);
    var lm := EntriesOf(local);
    var mkdirs, sends, sigWanted, verify := [], [], [], [];
    for i := 0 to |local|
      invariant mkdirs == PathsOf(Select(local[..i], MkdirTest(rm)))
      invariant sends == Select(local[..i], SendTest(rm))
      invariant sigWanted == PathsOf(Select(local[..i], SigTest(rm)))
      invariant verify == Select(local[..i], VerifyTest(rm))
    {
      var m := local[i];
      SelectStep(local, i, MkdirTest(rm));
      SelectStep(local, i, SendTest(rm));
      SelectStep(local, i, SigTest(rm));
      SelectStep(local, i, VerifyTest(rm));
      PathsOfAppend(Select(local[..i], MkdirTest(rm)), m);
      PathsOfAppend(Select(local[..i], SigTest(rm)), m);
      if m.path !in rm {
        if m.kind.KDir? {
          mkdirs := mkdirs + [m.path];
        } else {
          sends := sends + [m];
        }
      } else if !SameEntry(m, rm[m.path]) {
        sends := sends + [m];
        if m.kind.KFile? && rm[m.path].kind.KFile? && rm[m.path].len > 0 {
          sigWanted := sigWanted + [m.path];
        }
      } else if m.kind.KFile? && m.len > 0 && m.len <= VERIFY_MAX {
        verify := verify + [m];
      }
    }
    assert local[..|local|] == local;
    var deletes := [];
    if delete {
      for i := 0 to |remote|
        invariant deletes == PathsOf(Select(remote[..i], ExtraTest(lm)))
      {
        SelectStep(remote, i, ExtraTest(lm));
        PathsOfAppend(Select(remote[..i], ExtraTest(lm)), remote[i]);
        if remote[i].path !in lm {
          deletes := deletes + [remote[i].path];
        }
      }
      assert remote[..|remote|] == remote;
      deletes := SortDeletes(deletes);
    }
    return Plan(mkdirs, sends, sigWanted, verify, deletes);
  }

  // ----- signatures -----

  datatype SigReply = SigReply(path: Path, blockLen: nat, data: seq<byte>)

  /** `read_no_follow`: the content of a regular file. */
  function ReadFile(t: Tree, p: Path): Option<seq<byte>>
  {
    if p in t && t[p].File? then Some(t[p].content) else None
  }

  /** The agent's answer for one requested path. */
  function AgentSig(f: Digest, t: Tree, p: Path): SigReply
  {
    match ReadFile(t, p)
    case Some(data) =>
      if data == [] then SigReply(p, BLOCK_LEN, [])
      else
        var bl := BlockLenFor(|data|);
        SigReply(p, bl, SigBytes(Signature(f, data, bl)))
    case None => SigReply(p, BLOCK_LEN, [])
  }

  type SigTable = map<Path, (nat, seq<BlockSig>)>

  /** One SIG frame for a file about to be sent: None is an error of the sync. */
  function GatherOne(table: SigTable, wanted: Path, reply: SigReply, remote: Entries): Option<SigTable>
  {
    if reply.data == [] then Some(table)
    else
      var listed := if wanted in remote then remote[wanted].len else 0;
      if !SigSizeOk(listed, HdrBlockLen(reply.blockLen), |reply.data|) then None
      else
        match ParseSig(reply.data)
        case Err(_) => None
        case Ok(sigs) => Some(table[reply.path := (reply.blockLen, sigs)])
  }

  /** `read_for_send`: the file must still be what the listing says. */
  function ReadForSend(local: Tree, m: Meta): Option<seq<byte>>
  {
    if m.path in local && local[m.path].File? && |local[m.path].content| == m.len && local[m.path].mtime == m.mtime
    then Some(local[m.path].content) else None
  }

  /** One SIG frame for a file that looked unchanged: does it have to be sent? */
  function VerifyOne(f: Digest, local: Tree, m: Meta, reply: SigReply): Option<bool>
  {
    var bl := HdrBlockLen(reply.blockLen);
    if reply.path != m.path || !LegalBlockLen(bl) then None
    else
      match ReadForSend(local, m)
      case None => None
      case Some(data) =>
        if !SigSizeOk(m.len, bl, |reply.data|) then None
        else
          match ParseSig(reply.data)
          case Err(_) => None
          case Ok(sigs) => Some(Signature(f, data, bl) != sigs)
  }

  /** Only a nonempty regular file has a signature. */
  lemma AgentSigExactly(f: Digest, t: Tree, p: Path)
    ensures var r := AgentSig(f, t, p);
            && r.path == p
            && (if p in t && t[p].File? && t[p].content != [] then
                  r.blockLen == BlockLenFor(|t[p].content|) &&
                  ParseSig(r.data) == Ok(Signature(f, t[p].content, r.blockLen))
                else r.blockLen == 32768 && r.data == [])
  {
    if p in t && t[p].File? && t[p].content != [] {
      SigRoundTrip(Signature(f, t[p].content, BlockLenFor(|t[p].content|)));
    }
  }

  /** A file is read for sending exactly if it still has the listed length and time. */
  lemma ReadForSendExactly(local: Tree, m: Meta, data: seq<byte>)
    ensures ReadForSend(local, m) == Some(data) <==>
            m.path in local && local[m.path] == File(data, m.mtime) && |data| == m.len
  {}

  /** A SIG frame is an error exactly if it carries more than the listed file accounts
    * for or no whole records; an empty one changes nothing, another one is entered. */
  lemma GatherExactly(table: SigTable, wanted: Path, reply: SigReply, remote: Entries)
    ensures var r := GatherOne(table, wanted, reply, remote);
            var listed := if wanted in remote then remote[wanted].len else 0;
            var bl := if reply.blockLen == 0 then 32768 else reply.blockLen;
            && (r.None? <==> reply.data != [] && !(SigSizeOk(listed, bl, |reply.data|) && |reply.data| % 32 == 0))
            && (r.Some? && reply.data == [] ==> r.value == table)
            && (r.Some? && reply.data != [] ==>
                  && r.value.Keys == table.Keys + {reply.path}
                  && r.value[reply.path].0 == reply.blockLen && SigBytes(r.value[reply.path].1) == reply.data
                  && forall q | q in table && q != reply.path :: r.value[q] == table[q])
  {
    if |reply.data| % 32 == 0 { SigWireRoundTrip(reply.data); }
  }

  /** Verifying fails exactly if the frame is for another path or has an illegal block
    * length, the file cannot be read, or the frame has too much or no whole records;
    * otherwise the file is sent again exactly if its own signature has other bytes. */
  lemma VerifyExactly(f: Digest, local: Tree, m: Meta, reply: SigReply)
    ensures var r := VerifyOne(f, local, m, reply);
            var bl := if reply.blockLen == 0 then 32768 else reply.blockLen;
            && (r.None? <==>
                  || reply.path != m.path || bl > 0x10_0000 || ReadForSend(local, m) == None
                  || !SigSizeOk(m.len, bl, |reply.data|) || |reply.data| % 32 != 0)
            && (r.Some? ==> (r.value <==> SigBytes(Signature(f, local[m.path].content, bl)) != reply.data))
  {
    if |reply.data| % 32 == 0 { SigWireRoundTrip(reply.data); }
    if VerifyOne(f, local, m, reply).Some? {
      var bl := HdrBlockLen(reply.blockLen);
      SigRoundTrip(Signature(f, local[m.path].content, bl));
    }
  }

  // ----- PUT frames -----

  function PutFor(f: Digest, local: Tree, m: Meta, table: SigTable): Option<Put>
  {
    var full := Put(m.path, m.kind, m.link, m.mtime, false, 0, m.len, []);
    if !m.kind.KFile? then Some(full)
    else
      match ReadForSend(local, m)
      case None => None
      case Some(data) =>
        if m.path in table then
          var (bl, sigs) := table[m.path];
          if !LegalBlockLen(bl) then None
          else
            var d := DeltaEncoder.DeltaOf(f, data, sigs, bl);
            if |d| < |data| then Some(full.(delta := true, blockLen := bl, data := d)) else Some(full.(data := data))
        else Some(full.(data := data))
  }

  /** The PUT frames up to the first file that cannot be read, and whether there is none. */
  function PutsFor(f: Digest, local: Tree, sends: seq<Meta>, table: SigTable): (seq<Put>, bool)
  {
    if sends == [] then ([], true)
    else
      match PutFor(f, local, sends[0], table)
      case None => ([], false)
      case Some(put) =>
        var (rest, ok) := PutsFor(f, local, sends[1..], table);
        ([put] + rest, ok)
  }

  /** The frame for `m`, or none. For a file there is none exactly if the file is no longer
    * what was listed or the table has an illegal block length for it; it carries the delta
    * exactly if the table has a signature for it and the delta is shorter. The other
    * fields are those of the entry. */
  ghost predicate IsFrameOf(f: Digest, local: Tree, m: Meta, table: SigTable, r: Option<Put>)
  {
    var p := m.path;
    && (r.None? <==>
          m.kind.KFile? &&
          (!(p in local && local[p].File? && |local[p].content| == m.len && local[p].mtime == m.mtime) ||
           (p in table && !(0 < table[p].0 <= 0x10_0000))))
    && (r.Some? ==>
          var put := r.value;
          && put.path == p && put.kind == m.kind && put.link == m.link && put.mtime == m.mtime && put.len == m.len
          && (!m.kind.KFile? ==> !put.delta && put.data == [])
          && (m.kind.KFile? ==>
                var content := local[p].content;
                if p in table && |DeltaEncoder.DeltaOf(f, content, table[p].1, table[p].0)| < |content| then
                  put.delta && put.blockLen == table[p].0 &&
                  put.data == DeltaEncoder.DeltaOf(f, content, table[p].1, table[p].0)
                else !put.delta && put.data == content))
  }

  lemma PutExactly(f: Digest, local: Tree, m: Meta, table: SigTable)
    ensures IsFrameOf(f, local, m, table, PutFor(f, local, m, table))
  {
    hide DeltaEncoder.DeltaOf;
  }

  /** One frame for each entry, up to the first that is refused. */
  lemma {:induction false} PutsExactly(f: Digest, local: Tree, sends: seq<Meta>, table: SigTable)
    ensures var (puts, ok) := PutsFor(f, local, sends, table);
            && |puts| <= |sends|
            && (forall i | 0 <= i < |puts| :: IsFrameOf(f, local, sends[i], table, Some(puts[i])))
            && (ok <==> |puts| == |sends|)
            && (!ok ==> IsFrameOf(f, local, sends[|puts|], table, None))
  {
    hide PutFor, IsFrameOf;
    if sends != [] {
      PutExactly(f, local, sends[0], table);
      PutsExactly(f, local, sends[1..], table);
    }
  }
}
