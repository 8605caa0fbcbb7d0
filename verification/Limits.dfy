/** Where a sync cannot succeed: exactly when the file operations of the agent go
  * through, and why the kinds of both trees have to agree. */
module Limits {
  import opened Bytes
  import opened Paths
  import opened FileTree
  import opened SyncPlan
  import opened Convergence
  import opened Session
  import opened AgentPeer
  import opened SyncProtocol
  import DeltaOps
  import Signatures

  // ----- one operation -----

  /** `create_dir_all` goes through exactly when only directories lie on the way. */
  lemma {:induction false} CreateDirAllExact(t: Tree, d: Path)
    requires WellFormed(t) && ValidPath(d)
    ensures CreateDirAll(t, d).outcome.Done? <==> DirsOnly(t, d)
    decreases |d|
  {
    if d in t {
      forall q | q in t && IsPrefix(q, d) && q != d ensures t[q] == Dir {
        PrefixIsDir(t, d, q);
      }
      assert IsPrefix(d, d);
    } else if d != [] {
      forall q ensures IsPrefix(q, d) <==> IsPrefix(q, Parent(d)) || q == d {
        PrefixOfParent(q, d);
      }
      assert ValidPath(Parent(d));
      CreateDirAllExact(t, Parent(d));
    }
  }

  /** A file is written exactly when its directory can be made and no directory is in its place. */
  lemma WriteFileExact(t: Tree, dest: Path, content: seq<byte>, mtime: int, now: nat)
    requires WellFormed(t) && ValidPath(dest)
    ensures WriteFile(t, dest, content, mtime, now).outcome.Done? <==>
            dest != [] && DirsOnly(t, Parent(dest)) && !(dest in t && t[dest].Dir?)
  {
    if dest != [] {
      assert ValidPath(Parent(dest));
      CreateDirAllExact(t, Parent(dest));
      if DirsOnly(t, Parent(dest)) {
        CreateDirAllOk(t, Parent(dest));
        assert !IsPrefix(dest, Parent(dest));
      }
    }
  }

  /** A link is created exactly when its target is accepted, its directory is there
    * and no directory is in its place: no directory is made for a link. */
  lemma PutLinkExact(t: Tree, dest: Path, target: string)
    requires WellFormed(t) && ValidPath(dest) && dest != []
    ensures PutLink(t, dest, target).outcome.Done? <==>
            && AcceptedTarget(target) && target != ""
            && Parent(dest) in t && t[Parent(dest)].Dir? && !(dest in t && t[dest].Dir?)
  {
    hide ResolveUnder, ThroughLink;
    assert Parent(dest) != dest;
    if Parent(dest) in t && t[Parent(dest)].Dir? {
      NotThroughLink(t, dest);
    }
  }

  /** What is in the way decides: a link leads out of the tree, a file is an error, and
    * nothing is changed. */
  lemma {:induction false} CreateDirAllFails(t: Tree, d: Path, q: Path)
    requires WellFormed(t) && ValidPath(d) && q in t && IsPrefix(q, d) && t[q] != Dir
    ensures CreateDirAll(t, d) == Fs(t, if t[q].Link? then Outside else Failed)
    decreases |d|
  {
    if d in t {
      if q != d { PrefixIsDir(t, d, q); }
    } else {
      PrefixOfParent(q, d);
      assert ValidPath(Parent(d));
      CreateDirAllFails(t, Parent(d), q);
    }
  }

  /** A write that fails changes nothing. */
  lemma WriteFileFails(t: Tree, dest: Path, content: seq<byte>, mtime: int, now: nat)
    requires WellFormed(t) && ValidPath(dest) && !WriteFile(t, dest, content, mtime, now).outcome.Done?
    ensures WriteFile(t, dest, content, mtime, now).tree == t
  {
    hide CreateDirAll;
    if dest != [] {
      assert ValidPath(Parent(dest));
      WriteFileExact(t, dest, content, mtime, now);
      if DirsOnly(t, Parent(dest)) {
        CreateDirAllThere(t, Parent(dest));
      } else {
        var q :| q in t && IsPrefix(q, Parent(dest)) && t[q] != Dir;
        CreateDirAllFails(t, Parent(dest), q);
      }
    }
  }

  lemma CreateDirAllThere(t: Tree, d: Path)
    requires d in t && t[d] == Dir
    ensures CreateDirAll(t, d) == Fs(t, Done)
  {}

  /** A link that cannot be made costs what was at its path, if its target was accepted
    * and that was no directory. */
  lemma PutLinkFails(t: Tree, dest: Path, target: string)
    requires WellFormed(t) && dest != [] && !PutLink(t, dest, target).outcome.Done?
    ensures PutLink(t, dest, target).tree ==
            if AcceptedTarget(target) && dest in t && !t[dest].Dir? then t - {dest} else t
  {
    hide ResolveUnder, ThroughLink;
    if dest in t {
      NotThroughLink(t, dest);
    }
  }

  /** A PUT frame for a file goes through exactly when it can be written and its delta,
    * if it is one, denotes a file of the announced length built on what is there. */
  lemma PutFileExact(t: Tree, put: Put, now: nat)
    requires WellFormed(t) && ValidPath(put.path) && put.kind.KFile?
    ensures var p, r := put.path, ApplyPut(t, put, now);
            var base := if p in t && t[p].File? then t[p].content else [];
            var bl := if put.blockLen == 0 then 32768 else put.blockLen;
            && (r.outcome.Done? <==>
                  && p != [] && DirsOnly(t, Parent(p)) && !(p in t && t[p].Dir?)
                  && (put.delta ==> !(p in t && t[p].Link?) &&
                                    exists content :: DeltaOps.Denotes(base, put.data, bl, put.len, content)))
            && (!r.outcome.Done? ==> r.tree == t)
            && (r.outcome.Done? ==>
                  && p in r.tree && r.tree[p].File?
                  && if put.delta then DeltaOps.Denotes(base, put.data, bl, put.len, r.tree[p].content)
                     else r.tree[p].content == put.data)
  {
    hide DirsOnly, CreateDirAll, DeltaOps.Patched, DeltaOps.Denotes;
    DeltaOps.PatchedMeans(Basis(t, put.path), put.data, HdrBlockLen(put.blockLen), put.len);
    var content := PutContent(t, put);
    if content.Some? {
      WriteFileExact(t, put.path, content.value, put.mtime, now);
      if !WriteFile(t, put.path, content.value, put.mtime, now).outcome.Done? {
        WriteFileFails(t, put.path, content.value, put.mtime, now);
      }
    }
  }

  /** A listed file can be read for sending exactly when its time is not before 1970:
    * the listing says 0 then, and the file is taken for changed. */
  lemma SendableExact(local: Tree, p: Path)
    requires p in local && local[p].File?
    ensures ReadForSend(local, MetaOf(p, local[p])).Some? <==> local[p].mtime >= 0
  {}

  // ----- the PUT phase -----

  /** All hypotheses of convergence but one. */
  ghost predicate SetupButKinds(j: Job)
  {
    && Shaped(j) && LinksAccepted(j) && RootReady(j) && FilesSendable(j)
    && (forall p | BothFiles(j, p) :: NoCollision(j, p))
    && Trusted(j)
  }

  /** A PUT frame touches nothing but its own path. */
  lemma ApplyPutKeeps(t: Tree, put: Put, now: nat, p: Path)
    requires p in t && put.path != p
    ensures p in ApplyPut(t, put, now).tree && ApplyPut(t, put, now).tree[p] == t[p]
  {
    hide CreateDirAll, DeltaOps.Patched, ResolveUnder, ThroughLink;
    CreateDirAllKeeps(t, put.path, p);
    if put.path != [] {
      CreateDirAllKeeps(t, Parent(put.path), p);
    }
  }

  /** A PUT frame never turns a directory into something else, or the other way round. */
  lemma ClashIsRefused(t: Tree, put: Put, now: nat)
    requires put.path in t && (t[put.path].Dir? <==> !put.kind.KDir?)
    ensures !ApplyPut(t, put, now).outcome.Done?
  {
    hide CreateDirAll, DeltaOps.Patched, ResolveUnder, ThroughLink;
    if put.kind.KFile? && put.path != [] {
      CreateDirAllKeeps(t, Parent(put.path), put.path);
    }
    if put.kind.KDir? {
      DirOverOther(t, put.path);
    }
  }

  lemma DirOverOther(t: Tree, d: Path)
    requires d in t && !t[d].Dir?
    ensures !CreateDirAll(t, d).outcome.Done?
  {}

  lemma {:induction false} ClashStopsPuts(t: Tree, puts: seq<Put>, now: nat, i: nat, k: nat)
    requires i < |puts| && k <= |puts|
    requires forall m | 0 <= m < i :: puts[m].path != puts[i].path
    requires puts[i].path in t && (t[puts[i].path].Dir? <==> !puts[i].kind.KDir?)
    ensures var r := ApplyPuts(t, puts[..k], now);
            if k <= i then puts[i].path in r.tree && r.tree[puts[i].path] == t[puts[i].path] else !r.outcome.Done?
  {
    hide ApplyPut;
    if k > 0 {
      ClashStopsPuts(t, puts, now, i, k - 1);
      ApplyPutsStep(t, puts, k - 1, now);
      var r := ApplyPuts(t, puts[..k - 1], now).tree;
      if k - 1 < i {
        ApplyPutKeeps(r, puts[k - 1], now, puts[i].path);
      } else if k - 1 == i {
        ClashIsRefused(r, puts[i], now);
      }
    }
  }

  lemma {:induction false} CreateAllKeeps(t: Tree, ps: seq<Path>, p: Path)
    requires p in t
    ensures p in CreateAll(t, ps).tree && CreateAll(t, ps).tree[p] == t[p]
  {
    if ps != [] {
      var r := CreateAll(t, ps[..|ps| - 1]);
      CreateAllKeeps(t, ps[..|ps| - 1], p);
      CreateDirAllKeeps(r.tree, ps[|ps| - 1], p);
    }
  }

  /** Every frame has the path and kind of its entry. */
  lemma {:induction false} PutsForHeaders(f: Signatures.Digest, local: Tree, sends: seq<Meta>, table: SigTable)
    ensures var (puts, ok) := PutsFor(f, local, sends, table);
            && |puts| <= |sends| && (ok ==> |puts| == |sends|)
            && forall i | 0 <= i < |puts| :: puts[i].path == sends[i].path && puts[i].kind == sends[i].kind
  {
    if sends != [] {
      PutForHeader(f, local, sends[0], table);
      hide PutFor;
      PutsForHeaders(f, local, sends[1..], table);
    }
  }

  lemma PutForHeader(f: Signatures.Digest, local: Tree, m: Meta, table: SigTable)
    ensures PutFor(f, local, m, table).Some? ==>
            PutFor(f, local, m, table).value.path == m.path && PutFor(f, local, m, table).value.kind == m.kind
  {}

  /** All that a sync does before the deletions. */
  predicate WorkDone(j: Job, plan: Plan, sends: seq<Meta>, table: SigTable)
  {
    var made := CreateAll(j.remote, plan.mkdirs);
    var (puts, ok) := PutsFor(j.f, j.local, sends, table);
    made.outcome.Done? && ok && ApplyPuts(made.tree, puts, j.now).outcome.Done?
  }

  /** With honest peers the MKDIR and PUT frames go through if and only if no local
    * directory stands against a remote file or link and no local file or link
    * against a remote directory. */
  lemma KindsDecide(j: Job, ls: seq<Meta>, rs: seq<Meta>, delete: bool, sends: seq<Meta>, table: SigTable)
    requires SetupButKinds(j) && Listed(j, ls, rs)
    requires SendsAll(j, sends) && TableOk(j, table) && TableFull(j, table)
    ensures WorkDone(j, PlanOf(ls, rs, delete), sends, table) <==> KindsAgree(j)
  {
    hide SetupButKinds, Listed, PlanOf, SendsAll, TableOk, TableFull, CreateAll, ApplyPuts, PutsFor, MetaOf, KindsAgree;
    SetupIsBoth(j);
    if KindsAgree(j) {
      AgreedWork(j, ls, rs, delete, sends, table);
    } else {
      var p := Clash(j);
      ClashIsListed(j, p);
      ClashedWork(j, PlanOf(ls, rs, delete), sends, table, p);
    }
  }

  lemma SetupIsBoth(j: Job)
    ensures Setup(j) <==> SetupButKinds(j) && KindsAgree(j)
  {}

  lemma Clash(j: Job) returns (p: Path)
    requires !KindsAgree(j)
    ensures Ours(j, p) && p in j.remote && (j.local[p].Dir? <==> !j.remote[p].Dir?)
  {
    p :| Ours(j, p) && p in j.remote && (j.local[p].Dir? <==> !j.remote[p].Dir?);
  }

  lemma ClashIsListed(j: Job, p: Path)
    requires SetupButKinds(j) && Ours(j, p) && p in j.remote && (j.local[p].Dir? <==> !j.remote[p].Dir?)
    ensures p != [] && Stale(j, p)
  {}

  lemma ClashedWork(j: Job, plan: Plan, sends: seq<Meta>, table: SigTable, p: Path)
    requires SendsAll(j, sends) && Stale(j, p) && p in j.remote && (j.local[p].Dir? <==> !j.remote[p].Dir?)
    ensures !WorkDone(j, plan, sends, table)
  {
    hide CreateAll, ApplyPuts, PutsFor, Stale, Altered;
    StaleIsOurs(j, p);
    var m := MetaOf(p, j.local[p]);
    assert ToSend(j, m.path) && m in sends;
    var i :| 0 <= i < |sends| && sends[i] == m;
    CreateAllKeeps(j.remote, plan.mkdirs, p);
    PutsForHeaders(j.f, j.local, sends, table);
    var made := CreateAll(j.remote, plan.mkdirs);
    var (puts, ok) := PutsFor(j.f, j.local, sends, table);
    if ok {
      ClashStopsPuts(made.tree, puts, j.now, i, |puts|);
      assert puts[..|puts|] == puts;
    }
  }

  lemma StaleIsOurs(j: Job, p: Path)
    requires Stale(j, p)
    ensures Ours(j, p)
  {}

  lemma AgreedWork(j: Job, ls: seq<Meta>, rs: seq<Meta>, delete: bool, sends: seq<Meta>, table: SigTable)
    requires Setup(j) && Listed(j, ls, rs)
    requires SendsAll(j, sends) && TableOk(j, table) && TableFull(j, table)
    ensures WorkDone(j, PlanOf(ls, rs, delete), sends, table)
  {
    hide Setup, Listed, PlanOf, TableOk, CreateAll, ApplyPuts, PutsFor, Good, DirsMade, ToSend, Carries;
    MkdirPhase(j, ls, rs, delete);
    forall i | 0 <= i < |sends| ensures IsSend(j, sends[i]) {
      assert sends[i] in sends;
    }
    PutsHonest(j, sends, table);
    var puts := PutsFor(j.f, j.local, sends, table).0;
    PutsOk(j, CreateAll(j.remote, PlanOf(ls, rs, delete).mkdirs).tree, puts, |puts|);
    assert puts[..|puts|] == puts;
  }

  // ----- the other hypotheses -----

  /** Whatever remote file goes unsent against a local one has the same content, if and
    * only if the local file is small enough for its content to be compared. */
  lemma TrustDecides(j: Job, p: Path)
    requires Ours(j, p) && p != [] && j.local[p].File?
    ensures (forall r: Node | r.File? && !ToSend(j.(remote := j.remote[p := r]), p) :: r.content == j.local[p].content) <==>
            |j.local[p].content| <= VERIFY_MAX
  {
    hide Excluded;
    var x := j.local[p].content;
    if |x| <= VERIFY_MAX {
      forall r: Node | r.File? && !ToSend(j.(remote := j.remote[p := r]), p) ensures r.content == x {
        var k := j.(remote := j.remote[p := r]);
        assert Ours(k, p) && k.remote[p] == r && !Stale(k, p) && !Altered(k, p);
        if x == [] {
          assert |r.content| == 0;
        } else {
          assert Suspect(k, p);
        }
      }
    } else {
      var forged := File(x[0 := if x[0] == 0 then 1 else 0], j.local[p].mtime);
      var k := j.(remote := j.remote[p := forged]);
      assert Ours(k, p) && k.remote[p] == forged && !ToSend(k, p);
      assert forged.content[0] != x[0];
    }
  }

  /** Without files above the limit there is nothing to trust. */
  lemma SmallFilesNeedNoTrust(j: Job)
    requires forall p | Ours(j, p) && j.local[p].File? :: |j.local[p].content| <= VERIFY_MAX
    ensures Trusted(j)
  {}

  /** A file that has been sent needs no sending again exactly when its time was not in
    * the agent's future. */
  lemma FutureIsSentAgain(j: Job, p: Path, n: Node)
    requires SetupButKinds(j) && Ours(j, p) && p != [] && j.local[p].File? && AsSent(j, p, n)
    ensures Stale(j.(remote := j.remote[p := n]), p) <==> j.local[p].mtime > j.now
  {
    ClampIsNearest(n.mtime, j.local[p].mtime, j.now);
    assert Ours(j.(remote := j.remote[p := n]), p);
  }

  // ----- names with a backslash -----

  /** A file that is listed under a path where there is nothing cannot be sent. */
  lemma ListedElsewhere(f: Signatures.Digest, local: Tree, ex: seq<Path>, ls: seq<Meta>, p: Path) returns (m: Meta)
    requires Lists(ls, local, ex) && Visible(p, local, ex) && local[p].File? && Shown(p) !in local
    ensures m in ls && m.path == Shown(p) && m.kind.KFile?
    ensures forall table :: PutFor(f, local, m, table) == None
  {
    hide Visible, Shown;
    var ps :| Enumerates(ps, local, ex) && Reports(ls, ps, local);
    var i :| 0 <= i < |ps| && ps[i] == p;
    m := ls[i];
  }

  /** A tree whose one file is called `a\b`. */
  function BackslashTree(): Tree
  {
    map[[] := Dir, ["a\\b"] := File([1], 5)]
  }

  /** The file is listed as `a/b`: the listing is not the tree, and the client gives
    * the sync up as soon as it has the remote listing. */
  lemma BackslashEndsSync(f: Signatures.Digest, ls: seq<Meta>, delete: bool)
    requires Lists(ls, BackslashTree(), [])
    ensures WellFormed(BackslashTree()) && !Truthful(ls, BackslashTree(), [])
    ensures ls == [Meta(["a", "b"], KFile, 1, 5, "")]
    ensures Traces(Client(Side(f, BackslashTree(), ls, [], delete)), AwaitHello, 3, [Hello, Listing([])], [SyncReq([])], Broken)
  {
    hide WellFormed, Lists, Truthful;
    BackslashListing(ls);
    GivesUp(Side(f, BackslashTree(), ls, [], delete), ls[0]);
  }

  lemma BackslashListing(ls: seq<Meta>)
    requires Lists(ls, BackslashTree(), [])
    ensures WellFormed(BackslashTree()) && !Truthful(ls, BackslashTree(), [])
    ensures ls == [Meta(["a", "b"], KFile, 1, 5, "")]
  {
    hide Lists, Shown, Truthful;
    var t := BackslashTree();
    var p: Path := ["a\\b"];
    BackslashTreeIsTree();
    ShownExample();
    var ps := ListedPaths(ls, t);
    OnlyOne(ps, t, p);
    TruthfulExactly(ls, t, []);
    assert Visible(p, t, []) && p[0][1] == BACKSLASH;
    assert !Plain(p);
  }

  lemma ListedPaths(ls: seq<Meta>, t: Tree) returns (ps: seq<Path>)
    requires Lists(ls, t, [])
    ensures Enumerates(ps, t, []) && Reports(ls, ps, t)
  {
    ps :| Enumerates(ps, t, []) && Reports(ls, ps, t);
  }

  lemma BackslashTreeIsTree()
    ensures WellFormed(BackslashTree())
  {
    var t, p: Path := BackslashTree(), ["a\\b"];
    assert p[0] == "a\\b" && p[0][0] == 'a' && p[0][1] == '\\' && p[0][2] == 'b';
    assert ValidPath(p);
    forall q | q in t && q != [] ensures Parent(q) == [] {}
  }

  lemma GivesUp(side: Side, m: Meta)
    requires side.listing == [m] && m.kind.KFile? && m.path !in side.local && side.ex == []
    ensures Traces(Client(side), AwaitHello, 3, [Hello, Listing([])], [SyncReq([])], Broken)
  {
    NoSend(side, m);
    hide PlanOf, StartPuts, MapOf;
    var c := Client(side);
    assert [Hello, Listing([])][1..] == [Listing([])] && [Listing([])][1..] == [] && [SyncReq([])][1..] == [];
    assert Traces(c, Broken, 0, [], [], Broken);
    assert Traces(c, AwaitList, 1, [Listing([])], [], Broken);
    assert Traces(c, Sending([SyncReq([])], ThenList), 2, [Listing([])], [SyncReq([])], Broken);
  }

  lemma ShownExample()
    ensures Shown(["a\\b"]) == ["a", "b"]
  {
    var name := "a\\b";
    assert name == "a" + "\\" + "b";
    assert Slashed(name) == "a" + "/" + "b" by {
      assert name[1..] == "\\b" && name[1..][1..] == "b" && name[1..][1..][1..] == "";
    }
    SplitAtSlash("a", "b");
    SplitName("a");
    SplitName("b");
    assert ["a\\b"][1..] == [];
    assert Shown(["a\\b"]) == Split("a/b") + [] == ["a"] + ["b"];
  }

  lemma OnlyOne(ps: seq<Path>, t: Tree, p: Path)
    requires Enumerates(ps, t, []) && p != [] && t.Keys == {[], p}
    ensures ps == [p]
  {
    assert Visible(p, t, []);
    var i :| 0 <= i < |ps| && ps[i] == p;
    forall k | 0 <= k < |ps| ensures ps[k] == p && k == i {
      assert Visible(ps[k], t, []);
    }
    assert ps[0] == p && ps[|ps| - 1] == p;
  }

  lemma SelectOne(m: Meta, keep: Meta -> bool)
    ensures Select([m], keep) == if keep(m) then [m] else []
  {
    assert [m][..0] == [];
    assert Select([m][..0], keep) == [];
  }

  lemma PlanOfOne(m: Meta, delete: bool)
    requires m.kind.KFile?
    ensures PlanOf([m], [], delete) == Plan([], [m], [], [], [])
  {
    var none: Entries := map[];
    assert MapOf([]) == none;
    SelectOne(m, MkdirTest(none));
    SelectOne(m, SendTest(none));
    SelectOne(m, SigTest(none));
    SelectOne(m, VerifyTest(none));
    assert Select([], ExtraTest(MapOf([m]))) == [];
    hide Select, MapOf;
  }

  lemma NoPut(f: Signatures.Digest, local: Tree, m: Meta, table: SigTable)
    requires m.kind.KFile? && m.path !in local
    ensures PutsFor(f, local, [m], table) == ([], false)
  {
    assert PutFor(f, local, m, table) == None;
  }

  lemma NoSend(side: Side, m: Meta)
    requires side.listing == [m] && m.kind.KFile? && m.path !in side.local
    ensures ClientGot(side, AwaitList, Listing([])) == Broken
  {
    hide PlanOf, PutsFor, MapOf;
    PlanOfOne(m, side.delete);
    NoPut(side.f, side.local, m, map[]);
    assert [m] + [] == [m];
  }
}
