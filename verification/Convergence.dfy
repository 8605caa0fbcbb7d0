/** What a sync does to the remote tree: the invariant of its PUT phase, and the
  * convergence of the remote tree to the local one. */
module Convergence {
  import opened Bytes
  import opened Paths
  import opened Signatures
  import opened DeltaOps
  import opened DeltaEncoder
  import opened FileTree
  import opened SyncPlan
  import Framing
  import RollingChecksum

  const MAX_REMOTE_FILE := 0x800_0000_0000

  /** What a data frame can carry. */
  const MAX_DATA := Framing.MAX_DATA

  /** A sync to be done: both trees as they are at its start. */
  datatype Job = Job(f: Digest, local: Tree, remote: Tree, ex: seq<Path>, now: nat)

  ghost predicate Ours(j: Job, p: Path)
  {
    p in j.local && !Excluded(p, j.ex)
  }

  /** Same kind, content and link target. */
  predicate SameNode(l: Node, r: Node)
  {
    match l
    case File(content, _) => r.File? && r.content == content
    case Dir => r.Dir?
    case Link(target) => r == Link(target)
  }

  ghost predicate BothFiles(j: Job, p: Path)
  {
    Ours(j, p) && p in j.remote && j.local[p].File? && j.remote[p].File?
  }

  // ----- what there is to do -----

  /** A local entry that is neither there already nor a missing directory. */
  ghost predicate Stale(j: Job, p: Path)
  {
    && Ours(j, p) && p != []
    && if p in j.remote then !Alike(j.local[p], j.remote[p]) else !j.local[p].Dir?
  }

  /** A small file whose length and modification time agree. */
  ghost predicate Suspect(j: Job, p: Path)
  {
    && BothFiles(j, p) && p != []
    && Alike(j.local[p], j.remote[p])
    && 0 < |j.local[p].content| <= VERIFY_MAX
  }

  ghost predicate Altered(j: Job, p: Path)
  {
    Suspect(j, p) && j.local[p].content != j.remote[p].content
  }

  ghost predicate ToSend(j: Job, p: Path)
  {
    Stale(j, p) || Altered(j, p)
  }

  // ----- the hypotheses of convergence -----

  ghost predicate Shaped(j: Job)
  {
    && WellFormed(j.local) && WellFormed(j.remote) && [] in j.local
    && NoBackslash(j.local, j.ex) && NoBackslash(j.remote, j.ex)
    && forall e <- j.ex :: e != []  // no string splits into no pieces
  }

  /** A directory never stands against a file or a link. */
  ghost predicate KindsAgree(j: Job)
  {
    forall p | Ours(j, p) && p in j.remote :: j.local[p].Dir? <==> j.remote[p].Dir?
  }

  /** Links that the agent accepts. */
  ghost predicate LinksAccepted(j: Job)
  {
    forall p | Ours(j, p) && j.local[p].Link? :: AcceptedTarget(j.local[p].target) && j.local[p].target != ""
  }

  /** A missing root is created by a directory or a file, not by a link. */
  ghost predicate RootReady(j: Job)
  {
    || [] in j.remote
    || (forall p | Ours(j, p) :: !j.local[p].Link?)
    || (exists p | Ours(j, p) :: p != [] && j.local[p].Dir?)
  }

  /** The delta that makes `content` out of `base`. */
  function DeltaFrom(f: Digest, base: seq<byte>, content: seq<byte>): seq<byte>
  {
    var bl := BlockLenFor(|base|);
    DeltaOf(f, content, Signature(f, base, bl), bl)
  }

  /** Whatever is shorter goes out to a receiver that holds `base`: the delta against it,
    * if it has any bytes, or the content. */
  ghost predicate GoesOut(f: Digest, base: seq<byte>, content: seq<byte>, delta: bool, blockLen: nat, data: seq<byte>)
  {
    && (delta <==> base != [] && |DeltaFrom(f, base, content)| < |content|)
    && data == (if delta then DeltaFrom(f, base, content) else content)
    && (delta ==> blockLen == BlockLenFor(|base|))
  }

  /** The old content that a file to be sent is built on. */
  ghost function BaseOf(j: Job, p: Path): seq<byte>
  {
    if BothFiles(j, p) && Stale(j, p) then j.remote[p].content else []
  }

  /** Files that are read carry a time the listing can express; files that are sent fit
    * into a frame, whole or as a delta. */
  ghost predicate FilesSendable(j: Job)
  {
    && (forall p | Ours(j, p) && j.local[p].File? && (ToSend(j, p) || Suspect(j, p)) :: j.local[p].mtime >= 0)
    && (forall p | Ours(j, p) && j.local[p].File? && ToSend(j, p) :: Sendable(j.f, BaseOf(j, p), j.local[p].content))
  }

  predicate Sendable(f: Digest, base: seq<byte>, content: seq<byte>)
  {
    |content| < U32_LIMIT && (|content| <= MAX_DATA || (base != [] && |DeltaFrom(f, base, content)| <= MAX_DATA))
  }

  /** The digest tells old and new content apart where that matters. */
  ghost predicate NoCollision(j: Job, p: Path)
    requires BothFiles(j, p)
  {
    var x, y := j.remote[p].content, j.local[p].content;
    && (Stale(j, p) ==> DeltaSafe(j.f, x, y))
    && (Altered(j, p) ==> BlocksFaithful(j.f, y, x, BlockLenFor(|x|)))
  }

  ghost predicate DeltaSafe(f: Digest, x: seq<byte>, y: seq<byte>)
  {
    |x| < MAX_REMOTE_FILE && WindowsFaithful(f, x, y, BlockLenFor(|x|))
  }

  /** Length and time tell the truth where contents are not compared. */
  predicate Trustworthy(l: Node, r: Node)
    requires l.File? && r.File?
  {
    |l.content| > VERIFY_MAX && |r.content| == |l.content| && SameTime(l.mtime, r.mtime) ==>
      r.content == l.content
  }

  ghost predicate Trusted(j: Job)
  {
    forall p | BothFiles(j, p) :: Trustworthy(j.local[p], j.remote[p])
  }

  ghost predicate Setup(j: Job)
  {
    && Shaped(j) && KindsAgree(j) && LinksAccepted(j) && RootReady(j) && FilesSendable(j)
    && (forall p | BothFiles(j, p) :: NoCollision(j, p))
    && Trusted(j)
  }

  // ----- the invariant -----

  /** The local entry `p` as the agent stores it, with the nearest time not in the future. */
  ghost predicate AsSent(j: Job, p: Path, n: Node)
    requires p in j.local
  {
    SameNode(j.local[p], n) && (n.File? ==> Nearest(n.mtime, j.local[p].mtime, j.now))
  }

  /** The remote tree after some of the work: `done` are the paths already put. */
  ghost predicate Good(j: Job, t: Tree, done: set<Path>)
  {
    && WellFormed(t)
    && (forall q | q in j.remote :: q in t && (q in done || t[q] == j.remote[q]))
    && (forall q | q in t :: q in j.remote || Ours(j, q))
    && (forall q | q in t && q !in j.remote && q !in done :: t[q] == Dir && j.local[q] == Dir)
    && (forall q | q in done :: q != [] && Ours(j, q) && ToSend(j, q) && !j.local[q].Dir? && q in t && AsSent(j, q, t[q]))
  }

  /** Every local directory is there. */
  ghost predicate DirsMade(j: Job, t: Tree)
  {
    && (forall q | Ours(j, q) && q != [] && j.local[q].Dir? :: q in t && t[q] == Dir)
    && ([] in t || forall q | Ours(j, q) :: !j.local[q].Link?)
  }

  lemma OursPrefix(j: Job, p: Path, q: Path)
    requires Setup(j) && Ours(j, p) && IsPrefix(q, p)
    ensures Ours(j, q)
    ensures q != p ==> j.local[q] == Dir
  {
    if q != p {
      assert IsAbove(q, p);
      PrefixIsDir(j.local, p, q);
    }
    if Excluded(q, j.ex) {
      ExcludedBelow(q, p, j.ex);
    }
  }

  lemma NothingInTheWay(j: Job, t: Tree, done: set<Path>, d: Path)
    requires Setup(j) && Good(j, t, done) && Ours(j, d) && j.local[d] == Dir
    ensures DirsOnly(t, d)
  {
    forall q | q in t && IsPrefix(q, d) ensures t[q] == Dir {
      OursPrefix(j, d, q);
      assert q !in done;
    }
  }

  lemma LocalIsShaped(j: Job, d: Path)
    requires Setup(j) && Ours(j, d)
    ensures ValidPath(d)
    ensures d != [] ==> Ours(j, Parent(d)) && j.local[Parent(d)] == Dir
  {
    if d != [] {
      assert IsPrefix(Parent(d), d);
      OursPrefix(j, d, Parent(d));
    }
  }

  /** Making a local directory keeps the invariant. */
  lemma DirStep(j: Job, t: Tree, done: set<Path>, d: Path)
    requires Setup(j) && Good(j, t, done) && Ours(j, d) && j.local[d] == Dir
    ensures var r := CreateDirAll(t, d);
            && r.outcome.Done? && Good(j, r.tree, done)
            && (forall q | q in t :: q in r.tree && r.tree[q] == t[q])
            && d in r.tree && r.tree[d] == Dir && [] in r.tree
  {
    hide Setup, CreateDirAll;
    NothingInTheWay(j, t, done, d);
    LocalIsShaped(j, d);
    CreateDirAllOk(t, d);
    forall q | IsPrefix(q, d) ensures Ours(j, q) && j.local[q] == Dir {
      OursPrefix(j, d, q);
    }
    assert IsPrefix(d, d) && IsPrefix([], d);
  }

  /** What a PUT frame must carry for the local entry `p`. */
  ghost predicate Carries(j: Job, put: Put)
  {
    var p := put.path;
    && Ours(j, p) && p != [] && ToSend(j, p) && |put.data| <= MAX_DATA
    && match j.local[p]
       case Dir => false
       case Link(target) => put.kind.KLink? && put.link == target
       case File(content, mtime) =>
         && put.kind.KFile? && put.mtime == mtime && put.len == |content|
         && GoesOut(j.f, BaseOf(j, p), content, put.delta, put.blockLen, put.data)
         && (put.delta ==>
               p in j.remote && j.remote[p].File? &&
               Patched(j.remote[p].content, put.data, HdrBlockLen(put.blockLen), put.len) == Some(content))
  }

  /** What a PUT frame costs: never more than the content or the delta, and for a file
    * that differs only in its time the cost of an unchanged file. */
  lemma PutCost(j: Job, put: Put)
    requires Carries(j, put) && HasBase(j, put.path)
    ensures var x, y := j.remote[put.path].content, j.local[put.path].content;
            && |put.data| <= |y| && |put.data| <= |DeltaFrom(j.f, x, y)|
            && (x == y ==>
                  var cost := UnchangedCost(|y|, BlockLenFor(|y|));
                  |put.data| == if cost < |y| then cost else |y|)
  {
    hide Patched, DeltaOf, Signature, ToSend, Stale;
    var x, y := j.remote[put.path].content, j.local[put.path].content;
    assert BaseOf(j, put.path) == x by { BaseIsOld(j, put.path); }
    UnchangedDeltaSize(j.f, y, BlockLenFor(|y|));
  }

  lemma BaseIsOld(j: Job, p: Path)
    requires HasBase(j, p)
    ensures BaseOf(j, p) == j.remote[p].content
  {}

  lemma NoDirAt(j: Job, t: Tree, done: set<Path>, p: Path)
    requires Setup(j) && Good(j, t, done) && Ours(j, p) && !j.local[p].Dir?
    ensures p in t ==> !t[p].Dir?
  {}

  /** Applying one PUT frame keeps the invariant and finishes its path. */
  lemma PutStep(j: Job, t: Tree, done: set<Path>, put: Put)
    requires Setup(j) && Good(j, t, done) && DirsMade(j, t)
    requires Carries(j, put) && put.path !in done
    ensures var r := ApplyPut(t, put, j.now);
            r.outcome.Done? && Good(j, r.tree, done + {put.path}) && DirsMade(j, r.tree)
  {
    hide Setup, ResolveUnder, Patched, Excluded, ToSend;
    var p := put.path;
    LocalIsShaped(j, p);
    NoDirAt(j, t, done, p);
    match j.local[p]
    case Link(target) =>
      LinkStep(j, t, done, p, target);
    case File(content, mtime) =>
      assert PutContent(t, put) == Some(content);
      FileStep(j, t, done, put, content);
  }

  /** `next` is `t` with the local entry `p` in place and at most directories added. */
  ghost predicate Placed(j: Job, t: Tree, next: Tree, p: Path)
  {
    && WellFormed(next)
    && (forall q | q in t :: q in next && (q == p || next[q] == t[q]))
    && (forall q | q in next && q !in t && q != p :: next[q] == Dir && Ours(j, q) && j.local[q] == Dir)
    && p in next && p in j.local && AsSent(j, p, next[p])
  }

  lemma PlacedIsGood(j: Job, t: Tree, done: set<Path>, next: Tree, p: Path)
    requires Good(j, t, done) && DirsMade(j, t) && Ours(j, p) && p != [] && !j.local[p].Dir? && ToSend(j, p)
    requires Placed(j, t, next, p)
    ensures Good(j, next, done + {p}) && DirsMade(j, next)
  {
    hide Excluded, WellFormed, AsSent, ToSend;
  }

  lemma LinkStep(j: Job, t: Tree, done: set<Path>, p: Path, target: string)
    requires Setup(j) && Good(j, t, done) && DirsMade(j, t)
    requires Ours(j, p) && p != [] && j.local[p] == Link(target) && p !in done && ToSend(j, p)
    ensures var r := PutLink(t, p, target);
            r.outcome.Done? && Good(j, r.tree, done + {p}) && DirsMade(j, r.tree)
  {
    hide Setup, AcceptedTarget, Good, DirsMade, Excluded, PutLink, WellFormed;
    LocalIsShaped(j, p);
    NoDirAt(j, t, done, p);
    GoodIsShaped(j, t, done);
    ParentIsThere(j, t, p);
    LinkIsAccepted(j, p);
    PutLinkOk(t, p, target);
    PlacedIsGood(j, t, done, t[p := Link(target)], p);
  }

  lemma GoodIsShaped(j: Job, t: Tree, done: set<Path>)
    requires Good(j, t, done)
    ensures WellFormed(t)
  {}

  lemma LinkIsAccepted(j: Job, p: Path)
    requires Setup(j) && Ours(j, p) && j.local[p].Link?
    ensures AcceptedTarget(j.local[p].target) && j.local[p].target != ""
  {}

  lemma ParentIsThere(j: Job, t: Tree, p: Path)
    requires Setup(j) && DirsMade(j, t) && Ours(j, p) && p != [] && j.local[p].Link? && WellFormed(t)
    ensures Parent(p) in t && t[Parent(p)] == Dir
  {
    LocalIsShaped(j, p);
  }

  lemma FileStep(j: Job, t: Tree, done: set<Path>, put: Put, content: seq<byte>)
    requires Setup(j) && Good(j, t, done) && DirsMade(j, t)
    requires Ours(j, put.path) && put.path != [] && j.local[put.path] == File(content, put.mtime)
    requires put.path !in done && ToSend(j, put.path)
    ensures var r := WriteFile(t, put.path, content, put.mtime, j.now);
            r.outcome.Done? && Good(j, r.tree, done + {put.path}) && DirsMade(j, r.tree)
  {
    hide Setup, WriteFile, Excluded;
    var p := put.path;
    LocalIsShaped(j, p);
    NoDirAt(j, t, done, p);
    NothingInTheWay(j, t, done, Parent(p));
    GoodIsShaped(j, t, done);
    hide Good, DirsMade;
    WriteFileOk(t, p, content, put.mtime, j.now);
    forall q | IsPrefix(q, p) ensures Ours(j, q) && (q != p ==> j.local[q] == Dir) {
      OursPrefix(j, p, q);
    }
    PlacedIsGood(j, t, done, WriteFile(t, p, content, put.mtime, j.now).tree, p);
  }

  // ----- what the plan contains -----

  ghost predicate Listed(j: Job, ls: seq<Meta>, rs: seq<Meta>)
  {
    Lists(ls, j.local, j.ex) && Lists(rs, j.remote, j.ex)
  }

  /** Both listings tell their trees. */
  lemma ListedTruly(j: Job, ls: seq<Meta>, rs: seq<Meta>)
    requires Setup(j) && Listed(j, ls, rs)
    ensures Truthful(ls, j.local, j.ex) && Truthful(rs, j.remote, j.ex)
  {
    hide WellFormed, Lists, Truthful, NoBackslash, KindsAgree, LinksAccepted, RootReady, FilesSendable, Trusted;
    TruthfulExactly(ls, j.local, j.ex);
    TruthfulExactly(rs, j.remote, j.ex);
  }

  lemma Members(ls: seq<Meta>, t: Tree, ex: seq<Path>)
    requires Truthful(ls, t, ex)
    ensures forall m :: m in ls <==> Visible(m.path, t, ex) && m == MetaOf(m.path, t[m.path])
  {
    hide MetaOf, Excluded;
    forall m ensures m in ls <==> Visible(m.path, t, ex) && m == MetaOf(m.path, t[m.path]) {
      if m in ls {
        var i :| 0 <= i < |ls| && ls[i] == m;
      }
    }
  }

  lemma ListedIs(j: Job, ls: seq<Meta>, rs: seq<Meta>)
    requires Setup(j) && Listed(j, ls, rs)
    ensures DistinctPaths(ls)
    ensures forall m :: m in ls <==> Ours(j, m.path) && m.path != [] && m == MetaOf(m.path, j.local[m.path])
    ensures forall p | Ours(j, p) && p != [] :: (p in MapOf(rs) <==> p in j.remote)
    ensures forall p :: p in MapOf(rs) ==> p in j.remote && MapOf(rs)[p] == MetaOf(p, j.remote[p])
  {
    hide Setup, Listed, MetaOf, Excluded;
    ListedTruly(j, ls, rs);
    MapOfListing(rs, j.remote, j.ex);
    Members(ls, j.local, j.ex);
  }

  lemma PathsOfMember(ms: seq<Meta>, p: Path)
    ensures p in PathsOf(ms) <==> exists m <- ms :: m.path == p
  {
    if p in PathsOf(ms) {
      var i :| 0 <= i < |ms| && PathsOf(ms)[i] == p;
      assert ms[i] in ms;
    }
    if m :| m in ms && m.path == p {
      var i :| 0 <= i < |ms| && ms[i] == m;
      assert PathsOf(ms)[i] == p;
    }
  }

  lemma PlanMkdirs(j: Job, ls: seq<Meta>, rs: seq<Meta>, delete: bool, p: Path)
    requires Setup(j) && Listed(j, ls, rs)
    ensures p in PlanOf(ls, rs, delete).mkdirs <==> Ours(j, p) && p != [] && j.local[p].Dir? && p !in j.remote
  {
    hide Setup, Listed, Excluded, MapOf;
    ListedIs(j, ls, rs);
    var test := MkdirTest(MapOf(rs));
    SelectMember(ls, test);
    PathsOfMember(Select(ls, test), p);
    if Ours(j, p) && p != [] {
      assert MetaOf(p, j.local[p]) in ls;
    }
  }

  lemma PlanSends(j: Job, ls: seq<Meta>, rs: seq<Meta>, delete: bool)
    requires Setup(j) && Listed(j, ls, rs)
    ensures var sends := PlanOf(ls, rs, delete).sends;
            DistinctPaths(sends) &&
            forall m :: m in sends <==> Stale(j, m.path) && m == MetaOf(m.path, j.local[m.path])
  {
    hide Setup, Listed, Excluded, MapOf, Alike, DistinctPaths;
    ListedIs(j, ls, rs);
    SelectMember(ls, SendTest(MapOf(rs)));
    AlikeMeans();
  }

  lemma PlanVerify(j: Job, ls: seq<Meta>, rs: seq<Meta>, delete: bool)
    requires Setup(j) && Listed(j, ls, rs)
    ensures var verify := PlanOf(ls, rs, delete).verify;
            DistinctPaths(verify) &&
            forall m :: m in verify <==> Suspect(j, m.path) && m == MetaOf(m.path, j.local[m.path])
  {
    hide Setup, Listed, Excluded, MapOf, DistinctPaths;
    ListedIs(j, ls, rs);
    SelectMember(ls, VerifyTest(MapOf(rs)));
    AlikeMeans();
  }

  /** A file to be sent that has something to build on. */
  ghost predicate HasBase(j: Job, p: Path)
  {
    BothFiles(j, p) && Stale(j, p) && j.remote[p].content != []
  }

  lemma PlanSigWanted(j: Job, ls: seq<Meta>, rs: seq<Meta>, delete: bool, p: Path)
    requires Setup(j) && Listed(j, ls, rs)
    ensures p in PlanOf(ls, rs, delete).sigWanted <==> HasBase(j, p)
    ensures HasBase(j, p) ==> p in MapOf(rs) && MapOf(rs)[p] == MetaOf(p, j.remote[p])
  {
    hide Setup, Listed, Excluded, MapOf, DistinctPaths;
    ListedIs(j, ls, rs);
    AlikeMeans();
    var test := SigTest(MapOf(rs));
    SelectMember(ls, test);
    PathsOfMember(Select(ls, test), p);
    if Ours(j, p) && p != [] {
      assert MetaOf(p, j.local[p]) in ls;
    }
  }

  /** A remote entry that the local tree does not have. */
  ghost predicate Extra(j: Job, p: Path)
  {
    p in j.remote && p != [] && !Excluded(p, j.ex) && p !in j.local
  }

  lemma PlanDeletes(j: Job, ls: seq<Meta>, rs: seq<Meta>)
    requires Setup(j) && Listed(j, ls, rs)
    ensures var ds := PlanOf(ls, rs, true).deletes;
            DeepestFirst(ds) && forall p :: p in ds <==> Extra(j, p)
  {
    hide Setup, Listed, Excluded, MapOf, DistinctPaths, MetaOf, Truthful;
    ListedTruly(j, ls, rs);
    MapOfListing(ls, j.local, j.ex);
    Members(rs, j.remote, j.ex);
    var test := ExtraTest(MapOf(ls));
    var extras := Select(rs, test);
    SelectMember(rs, test);
    var ps := PathsOf(extras);
    forall p ensures p in ps <==> Extra(j, p) {
      PathsOfMember(extras, p);
      if Extra(j, p) {
        assert MetaOf(p, j.remote[p]) in rs;
      }
    }
    forall i | 0 <= i < |ps| ensures ps[i] != [] && ValidPath(ps[i]) {
      assert ps[i] in ps;
      RemoteIsValid(j, ps[i]);
    }
    SortDeletesOk(ps);
  }

  lemma RemoteIsValid(j: Job, p: Path)
    requires Setup(j) && p in j.remote
    ensures ValidPath(p)
  {}

  // ----- making the directories -----

  lemma StartIsGood(j: Job)
    requires Setup(j)
    ensures Good(j, j.remote, {})
  {}

  lemma {:induction false} MkdirsOk(j: Job, ps: seq<Path>, k: nat)
    requires Setup(j) && k <= |ps|
    requires forall i | 0 <= i < |ps| :: Ours(j, ps[i]) && j.local[ps[i]] == Dir
    ensures var r := CreateAll(j.remote, ps[..k]);
            && r.outcome.Done? && Good(j, r.tree, {})
            && (forall i | 0 <= i < k :: ps[i] in r.tree)
            && (k > 0 ==> [] in r.tree)
  {
    hide Setup, Good, CreateDirAll, Ours;
    if k == 0 {
      StartIsGood(j);
      assert CreateAll(j.remote, ps[..0]) == Fs(j.remote, Done);
    } else {
      hide CreateAll;
      MkdirsOk(j, ps, k - 1);
      CreateAllStep(j.remote, ps, k - 1);
      DirStep(j, CreateAll(j.remote, ps[..k - 1]).tree, {}, ps[k - 1]);
    }
  }

  /** After the MKDIR frame every local directory is there. */
  lemma MkdirPhase(j: Job, ls: seq<Meta>, rs: seq<Meta>, delete: bool)
    requires Setup(j) && Listed(j, ls, rs)
    ensures var r := CreateAll(j.remote, PlanOf(ls, rs, delete).mkdirs);
            r.outcome.Done? && Good(j, r.tree, {}) && DirsMade(j, r.tree)
  {
    hide Listed, Excluded, PlanOf, CreateAll, FilesSendable, NoCollision, Trusted, LinksAccepted, NoBackslash;
    var ps := PlanOf(ls, rs, delete).mkdirs;
    forall i | 0 <= i < |ps| ensures Ours(j, ps[i]) && j.local[ps[i]] == Dir {
      assert ps[i] in ps;
      PlanMkdirs(j, ls, rs, delete, ps[i]);
    }
    MkdirsOk(j, ps, |ps|);
    assert ps[..|ps|] == ps;
    var t := CreateAll(j.remote, ps).tree;
    forall q | Ours(j, q) && q != [] && j.local[q].Dir? ensures q in t && t[q] == Dir {
      PlanMkdirs(j, ls, rs, delete, q);
      if q in ps {
        var i :| 0 <= i < |ps| && ps[i] == q;
      }
      assert q !in j.remote ==> t[q] == Dir;
    }
    if [] !in t && exists p | Ours(j, p) :: p != [] && j.local[p].Dir? {
      var p :| Ours(j, p) && p != [] && j.local[p].Dir?;
      PrefixIsDir(t, p, []);
    }
  }

  // ----- signatures -----

  ghost predicate TableOk(j: Job, table: SigTable)
  {
    forall p | p in table ::
      && HasBase(j, p)
      && var x := j.remote[p].content;
         table[p] == (BlockLenFor(|x|), Signature(j.f, x, BlockLenFor(|x|)))
  }

  ghost predicate TableFull(j: Job, table: SigTable)
  {
    forall p | HasBase(j, p) :: p in table
  }

  /** An honest signature passes the size check and parses to what was computed. */
  lemma HonestReply(f: Digest, t: Tree, p: Path)
    requires p in t && t[p].File? && t[p].content != [] && |t[p].content| < MAX_REMOTE_FILE
    ensures var x, r := t[p].content, AgentSig(f, t, p);
            && r.path == p && r.blockLen == BlockLenFor(|x|) == HdrBlockLen(r.blockLen)
            && r.data != [] && SigSizeOk(|x|, r.blockLen, |r.data|)
            && ParseSig(r.data) == Ok(Signature(f, x, r.blockLen))
  {
    var x := t[p].content;
    var bl := BlockLenFor(|x|);
    HonestSigIsTheBound(f, x, bl, |SigBytes(Signature(f, x, bl))|);
    SigRoundTrip(Signature(f, x, bl));
    assert Signature(f, x, bl) != [];
  }

  lemma MetaOfFile(p: Path, n: Node)
    requires n.File?
    ensures MetaOf(p, n).len == |n.content|
  {}

  lemma BaseIsThere(j: Job, t: Tree, p: Path)
    requires Good(j, t, {}) && HasBase(j, p) && NoCollision(j, p)
    ensures p in t && t[p] == j.remote[p] && |t[p].content| < MAX_REMOTE_FILE
  {}

  /** An honest SIG frame for a file to be sent becomes an entry of the table. */
  lemma GatherHonest(j: Job, t: Tree, p: Path, remote: Entries, table: SigTable)
    requires TableOk(j, table) && p in t && p in j.remote && t[p] == j.remote[p]
    requires HasBase(j, p) && |t[p].content| < MAX_REMOTE_FILE && p in remote && remote[p] == MetaOf(p, j.remote[p])
    ensures var r := GatherOne(table, p, AgentSig(j.f, t, p), remote);
            r.Some? && TableOk(j, r.value) && r.value.Keys == table.Keys + {p}
  {
    hide AgentSig, SigSizeOk, ParseSig, Signature, BlockLenFor, Alike, MetaOf, Stale;
    HonestReply(j.f, t, p);
    MetaOfFile(p, j.remote[p]);
  }

  lemma VerifyHonest(j: Job, t: Tree, m: Meta)
    requires Setup(j) && Good(j, t, {}) && Suspect(j, m.path) && m == MetaOf(m.path, j.local[m.path])
    ensures VerifyOne(j.f, j.local, m, AgentSig(j.f, t, m.path)) == Some(Altered(j, m.path))
  {
    var p := m.path;
    var x, y := j.remote[p].content, j.local[p].content;
    var bl := BlockLenFor(|x|);
    assert t[p] == j.remote[p];
    HonestReply(j.f, t, p);
    assert BothFiles(j, p);
    if x != y {
      assert Altered(j, p);
      SignatureFaithful(j.f, y, x, bl);
    }
  }

  /** `changed` are the altered ones among the first `k` files to verify. */
  ghost predicate ChangedOk(j: Job, verify: seq<Meta>, k: nat, changed: seq<Meta>)
    requires k <= |verify|
  {
    DistinctPaths(changed) && forall m :: m in changed <==> m in verify[..k] && Altered(j, m.path)
  }

  lemma ChangedStep(j: Job, verify: seq<Meta>, k: nat, changed: seq<Meta>)
    requires k < |verify| && DistinctPaths(verify) && ChangedOk(j, verify, k, changed)
    ensures ChangedOk(j, verify, k + 1, changed + if Altered(j, verify[k].path) then [verify[k]] else [])
  {
    hide Altered;
    var init := verify[..k + 1];
    assert init[..k] == verify[..k];
    LastIsNew(init, k);
    forall i | 0 <= i < |changed| ensures changed[i].path != verify[k].path {
      assert changed[i] in changed;
    }
  }

  // ----- the files to send -----

  /** Everything sent: distinct, and exactly what has to be. */
  ghost predicate SendsAll(j: Job, sends: seq<Meta>)
  {
    && DistinctPaths(sends)
    && (forall m :: m in sends <==> ToSend(j, m.path) && m == MetaOf(m.path, j.local[m.path]))
  }

  lemma SendsTogether(j: Job, sends: seq<Meta>, more: seq<Meta>)
    requires DistinctPaths(sends) && DistinctPaths(more)
    requires forall m :: m in sends <==> Stale(j, m.path) && m == MetaOf(m.path, j.local[m.path])
    requires forall m :: m in more <==> Altered(j, m.path) && m == MetaOf(m.path, j.local[m.path])
    ensures SendsAll(j, sends + more)
  {
    var all := sends + more;
    forall i, k | 0 <= i < k < |all| ensures all[i].path != all[k].path {
      if i < |sends| && |sends| <= k {
        assert all[i] in sends && all[k] in more;
      }
    }
  }

  lemma LeafToSend(j: Job, p: Path)
    requires Setup(j) && ToSend(j, p)
    ensures Ours(j, p) && p != [] && !j.local[p].Dir?
  {}

  lemma FewBlocks(n: nat, bl: nat)
    requires n < MAX_REMOTE_FILE && MIN_BLOCK <= bl
    ensures BlockCount(n, bl) <= U32_LIMIT
  {
    RollingChecksum.MulMonotone(U32_LIMIT, MIN_BLOCK, bl);
    CountBound(n, bl, U32_LIMIT);
  }

  /** The frame for a file carries its content, whole or as a delta against the old
    * one, and fits. */
  lemma PutHonest(j: Job, p: Path, table: SigTable)
    requires Setup(j) && ToSend(j, p) && TableOk(j, table) && TableFull(j, table)
    ensures var r := PutFor(j.f, j.local, MetaOf(p, j.local[p]), table);
            r.Some? && r.value.path == p && Carries(j, r.value)
  {
    hide Shaped, LinksAccepted, RootReady, Trusted, Excluded, WindowsFaithful, BlocksFaithful, Alike, DeltaOf, Patched;
    LeafToSend(j, p);
    if j.local[p].File? {
      assert Sendable(j.f, BaseOf(j, p), j.local[p].content);
      if HasBase(j, p) {
        var x, y := j.remote[p].content, j.local[p].content;
        var bl := BlockLenFor(|x|);
        assert NoCollision(j, p);
        FewBlocks(|x|, bl);
        DeltaRoundTrip(j.f, x, y, bl);
      }
    }
  }

  ghost predicate CarriesAll(j: Job, sends: seq<Meta>, puts: seq<Put>)
  {
    |puts| == |sends| && forall i | 0 <= i < |puts| :: puts[i].path == sends[i].path && Carries(j, puts[i])
  }

  ghost predicate IsSend(j: Job, m: Meta)
  {
    ToSend(j, m.path) && m == MetaOf(m.path, j.local[m.path])
  }

  lemma {:induction false} PutsHonest(j: Job, sends: seq<Meta>, table: SigTable)
    requires Setup(j) && TableOk(j, table) && TableFull(j, table)
    requires forall i | 0 <= i < |sends| :: IsSend(j, sends[i])
    ensures var (puts, ok) := PutsFor(j.f, j.local, sends, table); ok && CarriesAll(j, sends, puts)
  {
    hide Setup, TableOk, TableFull, PutFor, Carries, ToSend, MetaOf;
    if sends != [] {
      PutHonest(j, sends[0].path, table);
      PutsHonest(j, sends[1..], table);
    }
  }

  /** The paths of the first `k` frames. */
  ghost function PutPaths(puts: seq<Put>, k: nat): set<Path>
    requires k <= |puts|
  {
    set i | 0 <= i < k :: puts[i].path
  }

  ghost predicate DistinctPuts(puts: seq<Put>)
  {
    forall i, k | 0 <= i < k < |puts| :: puts[i].path != puts[k].path
  }

  /** After any number of PUT frames the invariant holds. */
  lemma {:induction false} PutsOk(j: Job, t: Tree, puts: seq<Put>, k: nat)
    requires Setup(j) && Good(j, t, {}) && DirsMade(j, t) && k <= |puts|
    requires DistinctPuts(puts) && forall i | 0 <= i < |puts| :: Carries(j, puts[i])
    ensures var r := ApplyPuts(t, puts[..k], j.now);
            r.outcome.Done? && Good(j, r.tree, PutPaths(puts, k)) && DirsMade(j, r.tree)
  {
    hide Setup, Good, DirsMade, Carries, ApplyPut;
    if k == 0 {
      assert PutPaths(puts, 0) == {};
    } else {
      hide ApplyPuts;
      PutsOk(j, t, puts, k - 1);
      ApplyPutsStep(t, puts, k - 1, j.now);
      assert puts[k - 1].path !in PutPaths(puts, k - 1);
      PutStep(j, ApplyPuts(t, puts[..k - 1], j.now).tree, PutPaths(puts, k - 1), puts[k - 1]);
      assert PutPaths(puts, k) == PutPaths(puts, k - 1) + {puts[k - 1].path};
    }
  }

  // ----- convergence -----

  /** Nothing but the excluded and the kept separates the remote tree from the local one. */
  ghost predicate Converged(j: Job, t: Tree, delete: bool)
  {
    && WellFormed(t)
    && (forall p | Ours(j, p) && p != [] :: p in t && SameNode(j.local[p], t[p]))
    && (forall p | p in t && Excluded(p, j.ex) :: p in j.remote)
    && (forall p | p in j.remote && Excluded(p, j.ex) :: p in t && t[p] == j.remote[p])
    && (forall p | p in t && p != [] && !Excluded(p, j.ex) && p !in j.local ::
          p in j.remote && t[p] == j.remote[p] && (delete ==> Kept(j.remote, j.ex, p)))
    && (forall p | Extra(j, p) && (!delete || Kept(j.remote, j.ex, p)) :: p in t)
  }

  /** What is not sent needs no sending. */
  lemma UnsentIsSame(j: Job, p: Path)
    requires Setup(j) && Ours(j, p) && p != [] && !ToSend(j, p)
    requires p in j.remote || !j.local[p].Dir?
    ensures p in j.remote && SameNode(j.local[p], j.remote[p])
  {
    if j.local[p].File? {
      assert BothFiles(j, p);
      assert Trustworthy(j.local[p], j.remote[p]);
      if |j.local[p].content| == 0 {
        assert j.local[p].content == j.remote[p].content == [];
      }
    }
  }

  /** When the PUT frames are through, everything local is in place. */
  lemma PutPhase(j: Job, t: Tree, done: set<Path>)
    requires Setup(j) && Good(j, t, done) && DirsMade(j, t)
    requires forall p :: p in done <==> ToSend(j, p)
    ensures Converged(j, t, false)
  {
    forall p | Ours(j, p) && p != [] ensures p in t && SameNode(j.local[p], t[p]) {
      if !ToSend(j, p) && !(j.local[p].Dir? && p !in j.remote) {
        UnsentIsSame(j, p);
      }
    }
  }

  /** Every local modification time lies in the agent's past. */
  ghost predicate InThePast(j: Job)
  {
    forall p | Ours(j, p) && j.local[p].File? :: j.local[p].mtime <= j.now
  }

  /** Nothing local would be planned again. */
  ghost predicate UpToDate(j: Job, t: Tree)
  {
    forall p | Ours(j, p) && p != [] ::
      p in t && SameNode(j.local[p], t[p]) && Alike(j.local[p], t[p])
  }

  lemma UnsentIsCurrent(j: Job, p: Path)
    requires Setup(j) && Ours(j, p) && p != [] && !ToSend(j, p)
    requires p in j.remote || !j.local[p].Dir?
    ensures p in j.remote && Alike(j.local[p], j.remote[p])
  {}

  lemma SentIsCurrent(j: Job, p: Path, n: Node)
    requires Setup(j) && InThePast(j) && Ours(j, p) && AsSent(j, p, n)
    ensures SameNode(j.local[p], n) && Alike(j.local[p], n)
  {
    if n.File? {
      ClampIsNearest(n.mtime, j.local[p].mtime, j.now);
    }
  }

  /** Sent files carry their times, and the others agreed to begin with. */
  lemma PutsUpToDate(j: Job, t: Tree, done: set<Path>)
    requires Setup(j) && InThePast(j) && Good(j, t, done) && DirsMade(j, t)
    requires forall p :: p in done <==> ToSend(j, p)
    ensures UpToDate(j, t)
  {
    forall p | Ours(j, p) && p != []
      ensures p in t && SameNode(j.local[p], t[p]) && Alike(j.local[p], t[p])
    {
      PathUpToDate(j, t, done, p);
    }
  }

  lemma PathUpToDate(j: Job, t: Tree, done: set<Path>, p: Path)
    requires Setup(j) && InThePast(j) && Good(j, t, done) && DirsMade(j, t) && Ours(j, p) && p != []
    requires forall p :: p in done <==> ToSend(j, p)
    ensures p in t && SameNode(j.local[p], t[p]) && Alike(j.local[p], t[p])
  {
    hide Setup, InThePast, ToSend, Excluded, Alike, MetaOf;
    if p in done {
      SentIsCurrent(j, p, t[p]);
    } else if j.local[p].Dir? {
      DirIsCurrent(j, p, t[p]);
    } else {
      UnsentIsSame(j, p);
      UnsentIsCurrent(j, p);
    }
  }

  lemma DirIsCurrent(j: Job, p: Path, n: Node)
    requires Ours(j, p) && j.local[p].Dir? && n.Dir?
    ensures SameNode(j.local[p], n) && Alike(j.local[p], n)
  {}

  lemma DeleteListOk(j: Job, t: Tree, done: set<Path>, ds: seq<Path>)
    requires Setup(j) && Good(j, t, done)
    requires DeepestFirst(ds) && forall p :: p in ds <==> Extra(j, p)
    ensures DeleteList(t, ds, j.ex)
  {
    forall d, c | d in ds && c in t && IsAbove(d, c) ensures c in ds || Excluded(c, j.ex) {
      if c in j.local {
        PrefixIsDir(j.local, c, d);
      }
    }
  }

  lemma DeletesKeepUpToDate(j: Job, t: Tree, done: set<Path>, ds: seq<Path>)
    requires Setup(j) && Good(j, t, done) && UpToDate(j, t)
    requires DeepestFirst(ds) && forall p :: p in ds <==> Extra(j, p)
    ensures UpToDate(j, DeleteAll(t, ds))
  {
    hide Setup, SameNode, Alike, MetaOf, DeleteAll, Excluded;
    DeleteListOk(j, t, done, ds);
    DeleteAllExact(t, ds, j.ex, |ds|);
    assert ds[..|ds|] == ds;
  }

  /** The DELETE frame removes what is extra and leaves the rest as it is. */
  lemma DeletePhase(j: Job, t: Tree, done: set<Path>, ds: seq<Path>)
    requires Setup(j) && Good(j, t, done) && Converged(j, t, false)
    requires DeepestFirst(ds) && forall p :: p in ds <==> Extra(j, p)
    ensures Converged(j, DeleteAll(t, ds), true)
  {
    DeleteListOk(j, t, done, ds);
    DeleteAllExact(t, ds, j.ex, |ds|);
    assert ds[..|ds|] == ds;
    var left := DeleteAll(t, ds);
    forall p | Extra(j, p) ensures Kept(t, j.ex, p) <==> Kept(j.remote, j.ex, p) {
      assert t[p] == j.remote[p];
      if Kept(t, j.ex, p) {
        var x :| x in t && IsAbove(p, x) && Excluded(x, j.ex);
        assert x in j.remote;
      }
      if Kept(j.remote, j.ex, p) {
        var x :| x in j.remote && IsAbove(p, x) && Excluded(x, j.ex);
        assert x in t;
      }
    }
  }
}
