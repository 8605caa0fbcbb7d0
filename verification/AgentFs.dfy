/** The agent's file operations of src/agent.rs, one system call after the other, on
  * a file tree that they change in place. */
module AgentFs {
  import opened Bytes
  import opened Paths
  import opened Signatures
  import opened FileTree
  import opened Safety
  import DeltaOps
  import SyncPlan

  /** Staging names that are not in use: `suffix` is what the clock and the counter give. */
  ghost predicate FreshNames(suffix: (Tree, Path) -> string)
  {
    forall t, d | d != [] :: IsSuffix(suffix(t, d)) && TempName(d, suffix(t, d)) !in t
  }

  function NameFor(suffix: (Tree, Path) -> string, t: Tree, dest: Path): Path
  {
    if dest == [] then [] else TempName(dest, suffix(t, dest))
  }

  lemma NameIsFresh(suffix: (Tree, Path) -> string, t: Tree, dest: Path)
    requires FreshNames(suffix) && dest != []
    ensures TempFor(dest, NameFor(suffix, t, dest)) && NameFor(suffix, t, dest) !in t
  {}

  /** Making the directory of `dest` does not touch the name. */
  lemma TempStays(t: Tree, dest: Path, tmp: Path)
    requires TempFor(dest, tmp)
    ensures var made := CreateDirAll(t, Parent(dest)).tree;
            (tmp in made <==> tmp in t) && (tmp in t ==> made[tmp] == t[tmp])
  {
    TempIsValid(dest, tmp);
    assert |tmp| == |dest|;
    if tmp in t {
      CreateDirAllKeeps(t, Parent(dest), tmp);
    } else {
      OnlyPrefixesMade(t, Parent(dest), tmp);
    }
  }

  class Store {
    var tree: Tree
    /** Every state of the tree since the store was opened. */
    ghost var trail: seq<Tree>

    constructor (t: Tree)
      ensures tree == t && trail == []
    {
      tree, trail := t, [];
    }

    /** What has been added to the trail since it was `before`. */
    ghost function Since(before: seq<Tree>): seq<Tree>
      reads this
    {
      if |before| <= |trail| then trail[|before|..] else []
    }

    ghost predicate Extends(before: seq<Tree>)
      reads this
    {
      |before| <= |trail| && trail[..|before|] == before
    }

    method Set(t: Tree)
      modifies this
      ensures tree == t && trail == old(trail) + [t]
    {
      tree := t;
      trail := trail + [t];
    }

    /** `create_dir_all`: a directory, after its parents. */
    method MakeDirs(d: Path) returns (o: Outcome)
      modifies this
      ensures Fs(tree, o) == CreateDirAll(old(tree), d)
      ensures Extends(old(trail)) && forall mid <- Since(old(trail)) :: DirMoment(old(tree), d, mid)
      decreases |d|
    {
      ghost var t0 := tree;
      assert IsPrefix(d, d);
      if d in tree {
        match tree[d]
        case Dir => o := Done;
        case File(_, _) => o := Failed;
        case Link(_) => o := Outside;
      } else if d == [] {
        Set(tree[d := Dir]);
        o := Done;
      } else {
        o := MakeDirs(Parent(d));
        forall mid <- Since(old(trail)) ensures DirMoment(t0, d, mid) {
          var q :| IsPrefix(q, Parent(d)) && mid == CreateDirAll(t0, q).tree;
          assert IsPrefix(q, d);
        }
        if o.Done? {
          Set(tree[d := Dir]);
        }
      }
    }

    /** The MKDIR arm of `serve_sync`: the first failure ends it. */
    method CreateDirs(ps: seq<Path>) returns (o: Outcome)
      modifies this
      ensures Fs(tree, o) == CreateAll(old(tree), ps)
      ensures Extends(old(trail)) && forall mid <- Since(old(trail)) :: MkdirMoment(old(tree), ps, mid)
    {
      o := Done;
      var k := 0;
      while k < |ps| && o.Done?
        invariant k <= |ps| && Fs(tree, o) == CreateAll(old(tree), ps[..k])
        invariant Extends(old(trail)) && forall mid <- Since(old(trail)) :: MkdirMoment(old(tree), ps, mid)
      {
        o := MakeDirs(ps[k]);
        CreateAllStep(old(tree), ps, k);
        k := k + 1;
      }
      StoppedEarly(old(tree), ps, k);
      assert ps[..|ps|] == ps;
    }

    /** A new file, written piece by piece and stamped at last. */
    method Stage(tmp: Path, content: seq<byte>, stamp: int, now: nat)
      requires tmp !in tree
      modifies this
      ensures tree == old(tree)[tmp := File(content, stamp)]
      ensures Extends(old(trail))
      ensures forall mid <- Since(old(trail)) :: Staged(old(tree), tmp, mid)
    {
      ghost var t0 := tree;
      Set(tree[tmp := File([], now)]);
      assert Staged(t0, tmp, tree);
      for i := 0 to |content|
        invariant tree == t0[tmp := File(content[..i], now)]
        invariant Extends(old(trail))
        invariant forall mid <- Since(old(trail)) :: Staged(t0, tmp, mid)
      {
        Set(tree[tmp := File(content[..i + 1], now)]);
        assert tree == t0[tmp := File(content[..i + 1], now)] && Staged(t0, tmp, tree);
      }
      Set(tree[tmp := File(content, stamp)]);
      assert tree == t0[tmp := File(content, stamp)] && Staged(t0, tmp, tree);
    }

    /** `rename`, which does not replace a directory, and the clean-up. */
    method Publish(tmp: Path, dest: Path) returns (o: Outcome)
      requires tmp in tree && tree[tmp].File? && tmp != dest
      modifies this
      ensures o == if dest in old(tree) && old(tree)[dest].Dir? then Failed else Done
      ensures tree == if o.Done? then (old(tree) - {tmp})[dest := old(tree)[tmp]] else old(tree) - {tmp}
      ensures trail == old(trail) + [tree]
    {
      if dest in tree && tree[dest].Dir? {
        o := Failed;
        Set(RemoveFile(tree, tmp));
      } else {
        o := Done;
        Set((tree - {tmp})[dest := tree[tmp]]);
      }
    }

    /** `write_file_atomic`: stage under `tmp`, stamp, rename; clean up on failure.
      * With a name that is not in use this is an atomic write; a name in use makes
      * it fail, and removes that file. */
    method WriteFileAtomic(dest: Path, content: seq<byte>, mtime: int, now: nat, tmp: Path) returns (o: Outcome)
      requires dest != [] ==> TempFor(dest, tmp)
      modifies this
      ensures dest == [] || tmp !in old(tree) ==> Fs(tree, o) == WriteFile(old(tree), dest, content, mtime, now)
      ensures dest != [] && tmp in old(tree) ==>
                var made := CreateDirAll(old(tree), Parent(dest));
                Fs(tree, o) == if made.outcome.Done? then Fs(RemoveFile(made.tree, tmp), Failed) else made
      ensures Extends(old(trail))
      ensures dest != [] && tmp !in old(tree) ==>
                forall mid <- Since(old(trail)) ::
                  mid == WriteFile(old(tree), dest, content, mtime, now).tree || StagingMoment(old(tree), dest, tmp, mid)
      ensures dest == [] ==> trail == old(trail)
      ensures o.Done? ==> Written(tree, dest, content, mtime, now)
    {
      hide CreateDirAll, DirMoment, Staged;
      if dest == [] {
        return Outside;
      }
      TempStays(tree, dest, tmp);
      o := MakeDirs(Parent(dest));
      if !o.Done? {
        return;
      }
      if tmp in tree {
        Set(RemoveFile(tree, tmp));
        return Failed;
      }
      ghost var made := tree;
      var stamp := Clamp(mtime, now);
      ClampIsNearest(stamp, mtime, now);
      Stage(tmp, content, stamp, now);
      o := Publish(tmp, dest);
      assert made[tmp := File(content, stamp)] - {tmp} == made;
    }

    /** The file branch of `apply_put`. */
    method ApplyFile(put: Put, now: nat, tmp: Path) returns (o: Outcome)
      requires put.kind.KFile? && (put.path != [] ==> TempFor(put.path, tmp) && tmp !in tree)
      modifies this
      ensures Fs(tree, o) == ApplyPut(old(tree), put, now)
      ensures Extends(old(trail)) && forall mid <- Since(old(trail)) :: PutMoment(old(tree), put, now, tmp, mid)
    {
      hide DeltaOps.Patched, WriteFile, StagingMoment, CreateDirAll;
      var content := put.data;
      if put.delta {
        if put.path in tree && tree[put.path].Link? {
          return Outside;
        }
        var r := DeltaOps.Patch(Basis(tree, put.path), put.data, HdrBlockLen(put.blockLen), put.len);
        if r.Err? {
          return Failed;
        }
        content := r.value;
      }
      assert PutContent(tree, put) == Some(content);
      o := WriteFileAtomic(put.path, content, put.mtime, now, tmp);
    }

    /** The link branch of `apply_put`. */
    method ApplyLink(put: Put, now: nat, tmp: Path) returns (o: Outcome)
      requires put.kind.KLink?
      modifies this
      ensures Fs(tree, o) == ApplyPut(old(tree), put, now)
      ensures Extends(old(trail)) && forall mid <- Since(old(trail)) :: PutMoment(old(tree), put, now, tmp, mid)
    {
      hide ResolveUnder, ThroughLink, CreateDirAll, StagingMoment;
      if !AcceptedTarget(put.link) {
        return Failed;
      }
      if put.path == [] || ThroughLink(tree, put.path) {
        return Outside;
      }
      Set(RemoveFile(tree, put.path));
      if put.link == "" || put.path in tree || Parent(put.path) !in tree || !tree[Parent(put.path)].Dir? {
        return Failed;
      }
      Set(tree[put.path := Link(put.link)]);
      o := Done;
    }

    /** `apply_put`. */
    method Apply(put: Put, now: nat, tmp: Path) returns (o: Outcome)
      requires put.path != [] ==> TempFor(put.path, tmp) && tmp !in tree
      modifies this
      ensures Fs(tree, o) == ApplyPut(old(tree), put, now)
      ensures Extends(old(trail)) && forall mid <- Since(old(trail)) :: PutMoment(old(tree), put, now, tmp, mid)
    {
      match put.kind
      case KDir => o := MakeDirs(put.path);
      case KLink => o := ApplyLink(put, now, tmp);
      case KFile => o := ApplyFile(put, now, tmp);
    }

    /** The DELETE arm of `serve_sync`: failures are passed over. */
    method DeletePaths(ps: seq<Path>)
      modifies this
      ensures tree == DeleteAll(old(tree), ps)
      ensures Extends(old(trail)) && forall mid <- Since(old(trail)) :: DeleteMoment(old(tree), ps, mid)
    {
      for k := 0 to |ps|
        invariant tree == DeleteAll(old(tree), ps[..k])
        invariant Extends(old(trail)) && forall mid <- Since(old(trail)) :: DeleteMoment(old(tree), ps, mid)
      {
        assert ps[..k + 1][..k] == ps[..k];
        var p := ps[k];
        if p in tree {
          if tree[p].Dir? {
            if !HasChild(tree, p) {
              Set(tree - {p});
            }
          } else {
            Set(tree - {p});
          }
        }
      }
      assert ps[..|ps|] == ps;
    }

    /** The SIG_REQ arm of `serve_sync`: one reply per path, in order. */
    method Signatures(h: StrongHash, ps: seq<Path>) returns (replies: seq<SyncPlan.SigReply>)
      ensures |replies| == |ps| && forall i | 0 <= i < |ps| :: replies[i] == SyncPlan.AgentSig(DigestOf(h), tree, ps[i])
    {
      replies := [];
      for k := 0 to |ps|
        invariant |replies| == k && forall i | 0 <= i < k :: replies[i] == SyncPlan.AgentSig(DigestOf(h), tree, ps[i])
      {
        var bl, data := BLOCK_LEN, [];
        if ps[k] in tree && tree[ps[k]].File? && tree[ps[k]].content != [] {
          var content := tree[ps[k]].content;
          bl := BlockLenFor(|content|);
          data := SigToBytes(Signature(DigestOf(h), content, bl));
        }
        replies := replies + [SyncPlan.SigReply(ps[k], bl, data)];
      }
    }
  }

  lemma StoppedEarly(t: Tree, ps: seq<Path>, k: nat)
    requires k <= |ps| && (k == |ps| || !CreateAll(t, ps[..k]).outcome.Done?)
    ensures CreateAll(t, ps[..k]) == CreateAll(t, ps)
  {
    Stopped(t, ps, k, |ps|);
    assert ps[..|ps|] == ps;
  }

  lemma {:induction false} Stopped(t: Tree, ps: seq<Path>, k: nat, m: nat)
    requires k <= m <= |ps| && (k == m || !CreateAll(t, ps[..k]).outcome.Done?)
    ensures CreateAll(t, ps[..k]) == CreateAll(t, ps[..m])
    decreases m
  {
    if k < m {
      Stopped(t, ps, k, m - 1);
      CreateAllStep(t, ps, m - 1);
    }
  }
}
