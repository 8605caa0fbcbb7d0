/** What holds of the remote tree whenever a sync is cut short, also in the middle
  * of a frame, and why a new sync can start from there. */
module Safety {
  import opened Paths
  import opened FileTree
  import opened SyncPlan
  import opened Convergence
  import DeltaOps
  import Signatures

  /** The local entry `p` is at the remote. */
  ghost predicate InPlace(j: Job, t: Tree, p: Path)
  {
    p in t && p in j.local && SameNode(j.local[p], t[p])
  }

  ghost predicate AllInPlace(j: Job, t: Tree)
  {
    forall p | Ours(j, p) && p != [] :: InPlace(j, t, p)
  }

  /** The local entry `p` has been brought there, because it had to be. */
  ghost predicate Brought(j: Job, t: Tree, p: Path)
  {
    InPlace(j, t, p) && (j.local[p].Dir? || ToSend(j, p))
  }

  /** A stop at any moment. What the local tree has is remotely as it was or as it
    * should be; nothing foreign is there but staging files (`temps`); what the local
    * tree does not have is as it was; nothing is missing except a link about to be
    * replaced, or extra entries once everything local is in place. */
  ghost predicate CrashSafe(j: Job, t: Tree, temps: set<Path>)
  {
    && WellFormed(t)
    && (forall q | Ours(j, q) && q in t :: (q in j.remote && t[q] == j.remote[q]) || Brought(j, t, q))
    && (forall q | q in t :: q in j.remote || Ours(j, q) || q in temps)
    && (forall q | q in temps :: q !in j.remote && q !in j.local && Plain(q))
    && (forall q | q in j.remote && q in t && !Ours(j, q) :: t[q] == j.remote[q])
    && (forall q | q in j.remote && q !in t :: (Ours(j, q) && j.local[q].Link?) || (Extra(j, q) && AllInPlace(j, t)))
  }

  /** Between frames there are no staging files and no missing links. */
  ghost predicate Safe(j: Job, t: Tree)
  {
    CrashSafe(j, t, {}) && forall q | q in j.remote && q !in t :: Extra(j, q)
  }

  /** What the invariant means for files and for excluded entries. */
  lemma CrashSafeMeans(j: Job, t: Tree, temps: set<Path>, q: Path)
    requires CrashSafe(j, t, temps)
    ensures Ours(j, q) && j.local[q].File? && q in j.remote ==> q in t && (t[q] == j.remote[q] || InPlace(j, t, q))
    ensures Ours(j, q) && j.local[q].File? && q !in j.remote && q in t ==> InPlace(j, t, q)
    ensures q in j.remote && Excluded(q, j.ex) ==> q in t && t[q] == j.remote[q]
    ensures q in j.remote && q !in j.local && !AllInPlace(j, t) ==> q in t && t[q] == j.remote[q]
  {}

  lemma GoodIsSafe(j: Job, t: Tree, done: set<Path>)
    requires Setup(j) && Good(j, t, done)
    ensures Safe(j, t)
  {}

  lemma ConvergedIsInPlace(j: Job, t: Tree, delete: bool)
    requires Converged(j, t, delete)
    ensures AllInPlace(j, t)
  {}

  /** Stopping anywhere in the list of deletions. */
  lemma DeletingIsSafe(j: Job, t: Tree, done: set<Path>, ds: seq<Path>, k: nat)
    requires Setup(j) && Good(j, t, done) && AllInPlace(j, t) && k <= |ds|
    requires DeepestFirst(ds) && forall p :: p in ds <==> Extra(j, p)
    ensures Safe(j, DeleteAll(t, ds[..k]))
  {
    hide Setup, DeleteAll, Excluded;
    DeleteListOk(j, t, done, ds);
    DeleteAllExact(t, ds, j.ex, k);
    DeletedIsSafe(j, t, done, DeleteAll(t, ds[..k]), ds[..k]);
  }

  lemma DeletedIsSafe(j: Job, t: Tree, done: set<Path>, left: Tree, gone: seq<Path>)
    requires Good(j, t, done) && AllInPlace(j, t) && WellFormed(left)
    requires forall q | q in left :: q in t && left[q] == t[q]
    requires forall q | q in t && q !in left :: q in gone
    requires forall q | q in gone :: Extra(j, q)
    ensures Safe(j, left)
  {
    hide Excluded;
    forall p | Ours(j, p) && p != [] ensures InPlace(j, left, p) {
      assert InPlace(j, t, p);
      assert p !in gone;
    }
  }

  // ----- inside a frame -----

  /** Directories are created parents first. */
  ghost predicate DirMoment(t: Tree, d: Path, mid: Tree)
  {
    exists q :: IsPrefix(q, d) && mid == CreateDirAll(t, q).tree
  }

  /** A MKDIR frame creates one directory after the other. */
  ghost predicate MkdirMoment(t: Tree, ps: seq<Path>, mid: Tree)
  {
    || mid == CreateAll(t, ps).tree
    || exists k | 0 <= k < |ps| :: DirMoment(CreateAll(t, ps[..k]).tree, ps[k], mid)
  }

  /** A staging name next to `dest` that nobody else uses. */
  ghost predicate FreshTemp(j: Job, t: Tree, dest: Path, tmp: Path)
  {
    TempFor(dest, tmp) && tmp !in t && tmp !in j.local
  }

  ghost predicate Staged(t: Tree, tmp: Path, mid: Tree)
  {
    exists content, mtime :: mid == t[tmp := File(content, mtime)]
  }

  /** A file is staged, in part or whole, in a directory made for it. */
  ghost predicate StagingMoment(t: Tree, dest: Path, tmp: Path, mid: Tree)
    requires dest != []
  {
    || DirMoment(t, Parent(dest), mid)
    || Staged(CreateDirAll(t, Parent(dest)).tree, tmp, mid)
  }

  /** A PUT frame: a file is staged and renamed; an old file or link makes way for a
    * new link. */
  ghost predicate PutMoment(t: Tree, put: Put, now: nat, tmp: Path, mid: Tree)
  {
    || mid == t
    || mid == ApplyPut(t, put, now).tree
    || (put.kind.KLink? && mid == RemoveFile(t, put.path))
    || (put.kind.KFile? && put.path != [] && StagingMoment(t, put.path, tmp, mid))
    || (put.kind.KDir? && DirMoment(t, put.path, mid))
  }

  ghost predicate DeleteMoment(t: Tree, ds: seq<Path>, mid: Tree)
  {
    exists k | 0 <= k <= |ds| :: mid == DeleteAll(t, ds[..k])
  }

  lemma DirMomentSafe(j: Job, t: Tree, done: set<Path>, d: Path, mid: Tree)
    requires Setup(j) && Good(j, t, done) && Ours(j, d) && j.local[d] == Dir && DirMoment(t, d, mid)
    ensures CrashSafe(j, mid, {})
  {
    hide Setup, Good, CreateDirAll, Ours;
    var q :| IsPrefix(q, d) && mid == CreateDirAll(t, q).tree;
    OursPrefix(j, d, q);
    DirStep(j, t, done, q);
    GoodIsSafe(j, mid, done);
  }

  lemma MkdirMomentSafe(j: Job, ps: seq<Path>, mid: Tree)
    requires Setup(j) && MkdirMoment(j.remote, ps, mid)
    requires forall i | 0 <= i < |ps| :: Ours(j, ps[i]) && j.local[ps[i]] == Dir
    ensures CrashSafe(j, mid, {})
  {
    hide Setup, Good, CreateAll, CreateDirAll, DirMoment, Ours;
    if mid == CreateAll(j.remote, ps).tree {
      MkdirsOk(j, ps, |ps|);
      assert ps[..|ps|] == ps;
      GoodIsSafe(j, mid, {});
    } else {
      var k :| 0 <= k < |ps| && DirMoment(CreateAll(j.remote, ps[..k]).tree, ps[k], mid);
      MkdirsOk(j, ps, k);
      DirMomentSafe(j, CreateAll(j.remote, ps[..k]).tree, {}, ps[k], mid);
    }
  }

  /** A staging file disturbs nothing. */
  lemma StagedIsSafe(j: Job, t: Tree, tmp: Path, n: Node)
    requires Safe(j, t) && n.File?
    requires tmp !in t && tmp !in j.local && tmp !in j.remote && ValidPath(tmp) && Plain(tmp)
    requires tmp != [] && Parent(tmp) in t && t[Parent(tmp)] == Dir
    ensures CrashSafe(j, t[tmp := n], {tmp})
  {
    hide Excluded, SameNode;
    KeepsShape(t, tmp, n);
    if AllInPlace(j, t) {
      assert AllInPlace(j, t[tmp := n]) by {
        forall p | Ours(j, p) && p != [] ensures InPlace(j, t[tmp := n], p) {
          assert InPlace(j, t, p);
        }
      }
    }
  }

  lemma StagingIsSafe(j: Job, t: Tree, done: set<Path>, p: Path, tmp: Path, mid: Tree)
    requires Setup(j) && Good(j, t, done) && Ours(j, p) && p != [] && FreshTemp(j, t, p, tmp)
    requires StagingMoment(t, p, tmp, mid)
    ensures CrashSafe(j, mid, {tmp})
  {
    hide Setup, CreateDirAll, Safe, CrashSafe, DirMoment, FreshTemp;
    LocalIsShaped(j, p);
    TempIsFresh(j, t, done, p, tmp);
    if DirMoment(t, Parent(p), mid) {
      DirMomentSafe(j, t, done, Parent(p), mid);
      NoTemp(j, mid, tmp);
    } else {
      var content, mtime :| mid == CreateDirAll(t, Parent(p)).tree[tmp := File(content, mtime)];
      DirStep(j, t, done, Parent(p));
      var made := CreateDirAll(t, Parent(p)).tree;
      GoodIsSafe(j, made, done);
      StagedIsSafe(j, made, tmp, File(content, mtime));
    }
  }

  /** Between the removal of an old entry and the creation of the link. */
  lemma UnlinkedIsSafe(j: Job, t: Tree, done: set<Path>, p: Path)
    requires Setup(j) && Good(j, t, done) && Ours(j, p) && p != [] && j.local[p].Link? && p !in done
    ensures CrashSafe(j, RemoveFile(t, p), {})
  {
    hide Setup;
    NoDirAt(j, t, done, p);
    GoodIsSafe(j, t, done);
    RemoveKeepsShape(t, p);
  }

  lemma RemoveKeepsShape(t: Tree, p: Path)
    requires WellFormed(t)
    ensures WellFormed(RemoveFile(t, p))
  {}

  lemma TempIsFresh(j: Job, t: Tree, done: set<Path>, dest: Path, tmp: Path)
    requires Setup(j) && Good(j, t, done) && Ours(j, dest) && FreshTemp(j, t, dest, tmp)
    ensures dest != [] && tmp != [] && Parent(tmp) == Parent(dest) && ValidPath(tmp) && Plain(tmp)
    ensures tmp !in t && tmp !in j.remote && tmp !in j.local
  {
    hide Excluded;
    TempIsValid(dest, tmp);
    assert Visible(dest, j.local, j.ex);
  }

  /** A staging file that is not there yet, or no more. */
  lemma NoTemp(j: Job, t: Tree, tmp: Path)
    requires CrashSafe(j, t, {}) || Safe(j, t)
    requires tmp !in j.remote && tmp !in j.local && Plain(tmp)
    ensures CrashSafe(j, t, {tmp})
  {}

  /** Whatever moment of a PUT frame a stop hits. */
  lemma PutMomentSafe(j: Job, t: Tree, done: set<Path>, put: Put, tmp: Path, mid: Tree)
    requires Setup(j) && Good(j, t, done) && DirsMade(j, t) && Carries(j, put) && put.path !in done
    requires PutMoment(t, put, j.now, tmp, mid) && FreshTemp(j, t, put.path, tmp)
    ensures CrashSafe(j, mid, {tmp})
  {
    hide Setup, Good, DirsMade, ApplyPut, CreateDirAll, CrashSafe, FreshTemp, DeltaOps.Patched, StagingMoment, DirMoment;
    var p := put.path;
    TempIsFresh(j, t, done, p, tmp);
    if mid == t {
      GoodIsSafe(j, t, done);
      NoTemp(j, mid, tmp);
    } else if mid == ApplyPut(t, put, j.now).tree {
      PutStep(j, t, done, put);
      GoodIsSafe(j, mid, done + {p});
      NoTemp(j, mid, tmp);
    } else if put.kind.KLink? {
      UnlinkedIsSafe(j, t, done, p);
      NoTemp(j, mid, tmp);
    } else {
      StagingIsSafe(j, t, done, p, tmp, mid);
    }
  }

  lemma DeleteMomentSafe(j: Job, t: Tree, done: set<Path>, ds: seq<Path>, mid: Tree)
    requires Setup(j) && Good(j, t, done) && AllInPlace(j, t)
    requires DeepestFirst(ds) && forall p :: p in ds <==> Extra(j, p)
    requires DeleteMoment(t, ds, mid)
    ensures CrashSafe(j, mid, {})
  {
    hide Setup, Good, DeleteAll, AllInPlace, CrashSafe;
    var k :| 0 <= k <= |ds| && mid == DeleteAll(t, ds[..k]);
    DeletingIsSafe(j, t, done, ds, k);
  }

  // ----- starting again -----

  /** Contents that may be sent again over themselves. */
  ghost predicate Resendable(j: Job)
  {
    forall p | Ours(j, p) && j.local[p].File? && ToSend(j, p) ::
      var c := j.local[p].content; DeltaSafe(j.f, c, c) && Sendable(j.f, c, c)
  }

  /** What `Setup` asks of one local file. */
  ghost predicate FileReady(j: Job, p: Path)
    requires Ours(j, p) && j.local[p].File?
  {
    && (ToSend(j, p) || Suspect(j, p) ==> j.local[p].mtime >= 0)
    && (ToSend(j, p) ==> Sendable(j.f, BaseOf(j, p), j.local[p].content))
    && (BothFiles(j, p) ==> NoCollision(j, p) && Trustworthy(j.local[p], j.remote[p]))
  }

  lemma SetupIsReady(j: Job, p: Path)
    requires Setup(j) && Ours(j, p) && j.local[p].File?
    ensures FileReady(j, p)
  {
    hide ToSend, Suspect, Sendable, NoCollision, Trustworthy, Excluded, Shaped, KindsAgree, LinksAccepted, RootReady;
  }

  /** Where the remote entry is the same, so is what has to be done. */
  lemma SameEntryReady(j: Job, k: Job, p: Path)
    requires k == j.(remote := k.remote) && Ours(j, p) && j.local[p].File? && FileReady(j, p)
    requires (p in k.remote <==> p in j.remote) && (p in j.remote ==> k.remote[p] == j.remote[p])
    ensures Ours(k, p) && FileReady(k, p)
  {
    hide Sendable, DeltaSafe, Excluded, Trustworthy, Signatures.BlocksFaithful, SameEntry, Alike, MetaOf;
    assert Ours(k, p) && (BothFiles(k, p) <==> BothFiles(j, p));
    assert (Stale(k, p) <==> Stale(j, p)) && (Suspect(k, p) <==> Suspect(j, p)) && (Altered(k, p) <==> Altered(j, p));
    assert BaseOf(k, p) == BaseOf(j, p);
  }

  /** Where the content has arrived, there is at most its time to correct. */
  lemma BroughtReady(j: Job, k: Job, p: Path)
    requires k == j.(remote := k.remote) && Ours(j, p) && j.local[p].File? && Brought(j, k.remote, p)
    ensures Ours(k, p)
    ensures var c := j.local[p].content;
            j.local[p].mtime >= 0 && DeltaSafe(j.f, c, c) && Sendable(j.f, c, c) ==> FileReady(k, p)
  {
    hide Sendable, DeltaSafe, Excluded, Signatures.BlocksFaithful, SameEntry, Alike, MetaOf;
    assert Ours(k, p);
  }

  /** After a stop a file is what it was before, or it has arrived. */
  lemma AfterStop(j: Job, t: Tree, temps: set<Path>, p: Path)
    requires CrashSafe(j, t, temps) && Ours(j, p) && j.local[p].File?
    ensures p in t && (p !in j.remote || t[p] != j.remote[p]) ==> Brought(j, t, p) && ToSend(j, p)
    ensures p !in t ==> p !in j.remote
  {
    hide ToSend, Excluded, SameNode;
  }

  lemma RestartFile(j: Job, t: Tree, temps: set<Path>, p: Path)
    requires Setup(j) && Resendable(j) && CrashSafe(j, t, temps) && Ours(j, p) && j.local[p].File?
    ensures Ours(j.(remote := t), p) && FileReady(j.(remote := t), p)
  {
    hide Setup, CrashSafe, Brought, ToSend, Suspect, Sendable, DeltaSafe, NoCollision, Trustworthy, Excluded;
    SetupIsReady(j, p);
    AfterStop(j, t, temps, p);
    if p in t && (p !in j.remote || t[p] != j.remote[p]) {
      BroughtReady(j, j.(remote := t), p);
    } else {
      SameEntryReady(j, j.(remote := t), p);
    }
  }

  /** Any tree a sync can leave behind is one a new sync of the same local tree
    * converges from. */
  lemma SafeToRestart(j: Job, t: Tree, temps: set<Path>)
    requires Setup(j) && Resendable(j) && CrashSafe(j, t, temps)
    ensures Setup(j.(remote := t))
  {
    hide CrashSafe, Sendable, NoCollision, Trustworthy, ToSend, Suspect, Resendable, Shaped, KindsAgree, RootReady, Excluded;
    var k := j.(remote := t);
    assert forall p :: Ours(k, p) <==> Ours(j, p);
    forall p | Ours(k, p) && k.local[p].File? ensures FileReady(k, p) {
      RestartFile(j, t, temps, p);
    }
    assert FilesSendable(k);
    RestartRoot(j, t, temps);
    RestartKinds(j, t, temps);
    RestartShape(j, t, temps);
  }

  lemma RestartShape(j: Job, t: Tree, temps: set<Path>)
    requires Setup(j) && CrashSafe(j, t, temps)
    ensures Shaped(j.(remote := t))
  {
    hide Excluded, WellFormed, Plain, KindsAgree, LinksAccepted, RootReady, FilesSendable, NoCollision, Trusted, Brought;
    forall q | Visible(q, t, j.ex) ensures Plain(q) {
      assert Ours(j, q) ==> Visible(q, j.local, j.ex);
      assert q in j.remote ==> Visible(q, j.remote, j.ex);
    }
  }

  lemma RestartKinds(j: Job, t: Tree, temps: set<Path>)
    requires Setup(j) && CrashSafe(j, t, temps)
    ensures KindsAgree(j.(remote := t))
  {
    hide Excluded, Shaped, FilesSendable, NoCollision, Trusted;
    assert forall p :: Ours(j.(remote := t), p) <==> Ours(j, p);
  }

  lemma RestartRoot(j: Job, t: Tree, temps: set<Path>)
    requires Setup(j) && CrashSafe(j, t, temps)
    ensures RootReady(j.(remote := t))
  {
    var k := j.(remote := t);
    assert forall p :: Ours(k, p) <==> Ours(j, p);
    if [] in j.remote {
      assert !Excluded([], j.ex);
      assert [] in t;
    }
  }
}
