/** The file tree below a sync root and what the agent does to it
  * (`write_file_atomic`, `apply_put` and the MKDIR and DELETE arms of `serve_sync`
  * in src/agent.rs). */
module FileTree {
  import opened Bytes
  import opened Paths
  import DeltaOps

  const BLOCK_LEN := 0x8000

  datatype Node = File(content: seq<byte>, mtime: int) | Dir | Link(target: string)

  /** Paths are relative to the root, which is `[]`; a missing root is the empty map. */
  type Tree = map<Path, Node>

  function Parent(p: Path): Path
    requires p != []
  {
    p[..|p| - 1]
  }

  predicate IsPrefix(p: Path, q: Path)
  {
    p <= q
  }

  predicate IsAbove(p: Path, q: Path)
  {
    p < q
  }

  lemma PrefixOfParent(q: Path, d: Path)
    requires d != []
    ensures IsPrefix(q, d) <==> IsPrefix(q, Parent(d)) || q == d
  {
    if IsPrefix(q, d) && q != d {
      assert |q| < |d|;
    }
  }

  ghost predicate WellFormed(t: Tree)
  {
    && (forall p | p in t :: ValidPath(p))
    && (forall p {:trigger Parent(p)} | p in t && p != [] :: Parent(p) in t && t[Parent(p)] == Dir)
    && ([] in t ==> t[[]] == Dir)
  }

  lemma {:induction false} PrefixIsDir(t: Tree, p: Path, q: Path)
    requires WellFormed(t) && p in t && IsAbove(q, p)
    ensures q in t && t[q] == Dir
    decreases |p|
  {
    if |p| == |q| + 1 {
      assert q == Parent(p);
    } else {
      PrefixIsDir(t, Parent(p), q);
    }
  }

  // ----- exclusion -----

  /** `excluded`, for excludes split at slashes and the path as a walk reports it
    * (see Paths.ExclusionOf). */
  predicate Excluded(p: Path, ex: seq<Path>)
  {
    exists e <- ex :: IsPrefix(e, Shown(p))
  }

  function SplitAll(ex: seq<string>): (es: seq<Path>)
    ensures |es| == |ex|
  {
    seq(|ex|, i requires 0 <= i < |ex| => Split(ex[i]))
  }

  /** A path is left out exactly if the reported path is an exclude or goes on with a
    * slash after one. */
  lemma ExcludedExactly(p: Path, ex: seq<string>)
    requires p != []
    ensures Excluded(p, SplitAll(ex)) <==>
            exists i | 0 <= i < |ex| ::
              var shown := Slashed(Join(p));
              shown == ex[i] || (|shown| > |ex[i]| && shown[..|ex[i]|] == ex[i] && shown[|ex[i]|] == '/')
  {
    hide Split, Shown, Slashed, Join;
    var shown, es := Slashed(Join(p)), SplitAll(ex);
    forall i | 0 <= i < |ex|
      ensures IsPrefix(es[i], Shown(p)) <==>
              shown == ex[i] || (|shown| > |ex[i]| && shown[..|ex[i]|] == ex[i] && shown[|ex[i]|] == '/')
    {
      ExclusionOf(p, ex[i]);
      StartsWithSlash(shown, ex[i]);
    }
    if Excluded(p, es) {
      var e :| e in es && IsPrefix(e, Shown(p));
      var i :| 0 <= i < |es| && es[i] == e;
    }
    if i :| 0 <= i < |ex| && IsPrefix(es[i], Shown(p)) {
      assert es[i] in es;
    }
  }

  lemma StartsWithSlash(s: string, e: string)
    ensures StartsWith(s, e + "/") <==> |s| > |e| && s[..|e|] == e && s[|e|] == '/'
  {
    if |s| > |e| {
      assert s[..|e| + 1] == s[..|e|] + [s[|e|]];
    }
  }

  lemma ExcludedBelow(p: Path, c: Path, ex: seq<Path>)
    requires IsPrefix(p, c) && Excluded(p, ex)
    ensures Excluded(c, ex)
  {
    var e :| e in ex && IsPrefix(e, Shown(p));
    ShownBelow(p, c);
    assert IsPrefix(e, Shown(c));
  }

  // ----- effects -----

  /** `Outside`: the effect goes through a symbolic link and depends on where that
    * leads, so it is not described by the tree. */
  datatype Outcome = Done | Failed | Outside

  datatype Fs = Fs(tree: Tree, outcome: Outcome)

  function CreateDirAll(t: Tree, d: Path): Fs
    decreases |d|
  {
    if d in t then
      Fs(t, match t[d] case Dir => Done case File(_, _) => Failed case Link(_) => Outside)
    else if d == [] then Fs(t[d := Dir], Done)
    else
      var r := CreateDirAll(t, Parent(d));
      if r.outcome.Done? then Fs(r.tree[d := Dir], Done) else r
  }

  /** Directories may be created down to `d`: nothing else is in the way. */
  ghost predicate DirsOnly(t: Tree, d: Path)
  {
    forall q | q in t && IsPrefix(q, d) :: t[q] == Dir
  }

  lemma {:induction false} CreateDirAllOk(t: Tree, d: Path)
    requires WellFormed(t) && ValidPath(d) && DirsOnly(t, d)
    ensures var r := CreateDirAll(t, d);
            && r.outcome.Done? && WellFormed(r.tree)
            && (forall q :: q in r.tree <==> q in t || IsPrefix(q, d))
            && (forall q | q in r.tree :: r.tree[q] == if q in t then t[q] else Dir)
    decreases |d|
  {
    if d in t {
      forall q | IsPrefix(q, d) ensures q in t {
        if q != d { PrefixIsDir(t, d, q); }
      }
    } else if d == [] {
      forall p | p in t ensures p == [] {
        if p != [] { PrefixIsDir(t, p, []); }
      }
    } else {
      forall q ensures IsPrefix(q, d) <==> IsPrefix(q, Parent(d)) || q == d {
        PrefixOfParent(q, d);
      }
      assert ValidPath(Parent(d));
      CreateDirAllOk(t, Parent(d));
      var r := CreateDirAll(t, Parent(d)).tree;
      assert IsPrefix(Parent(d), Parent(d));
      forall c | c in r && c != [] ensures Parent(c) != d {
        assert c in t || IsPrefix(c, Parent(d));
      }
    }
  }

  /** Making directories changes nothing that is there. */
  lemma {:induction false} CreateDirAllKeeps(t: Tree, d: Path, p: Path)
    requires p in t
    ensures p in CreateDirAll(t, d).tree && CreateDirAll(t, d).tree[p] == t[p]
    decreases |d|
  {
    if d !in t && d != [] {
      CreateDirAllKeeps(t, Parent(d), p);
    }
  }

  lemma {:induction false} OnlyPrefixesMade(t: Tree, d: Path, p: Path)
    requires p !in t && |p| > |d|
    ensures p !in CreateDirAll(t, d).tree
    decreases |d|
  {
    if d !in t && d != [] {
      OnlyPrefixesMade(t, Parent(d), p);
    }
  }

  function Clamp(mtime: int, now: nat): nat
  {
    if mtime < 0 then 0 else if mtime > now then now else mtime
  }

  // ----- staging names -----

  /** Process id, counter and time in hexadecimal, with dashes between. */
  predicate IsSuffix(s: string)
  {
    forall i | 0 <= i < |s| :: '0' <= s[i] <= '9' || 'a' <= s[i] <= 'f' || s[i] == '-'
  }

  /** `tmp_path_for`: a name next to `dest`. */
  function TempName(dest: Path, suffix: string): (tmp: Path)
    requires dest != []
    ensures tmp != [] && tmp != dest && Parent(tmp) == Parent(dest)
  {
    var name := "." + dest[|dest| - 1] + ".tmp-" + suffix;
    assert |name| > |dest[|dest| - 1]|;
    Parent(dest) + [name]
  }

  ghost predicate TempFor(dest: Path, tmp: Path)
  {
    dest != [] && exists suffix :: IsSuffix(suffix) && tmp == TempName(dest, suffix)
  }

  /** A staging name is an ordinary name, and plain if `dest` is. */
  lemma TempIsValid(dest: Path, tmp: Path)
    requires TempFor(dest, tmp)
    ensures tmp != [] && tmp != dest && Parent(tmp) == Parent(dest)
    ensures ValidPath(dest) ==> ValidPath(tmp)
    ensures Plain(dest) ==> Plain(tmp)
  {
    var suffix :| IsSuffix(suffix) && tmp == TempName(dest, suffix);
    var last := dest[|dest| - 1];
    var name := "." + last + ".tmp-" + suffix;
    if ValidPath(dest) {
      assert ValidName(last);
      assert |name| > 2;
      forall c | c in name ensures c != SLASH {
        assert c in last || c in suffix || c in ".tmp-";
      }
      assert ValidPath(Parent(dest));
    }
    if Plain(dest) {
      forall c | c in name ensures c != BACKSLASH {
        assert c in last || c in suffix || c in ".tmp-";
      }
    }
  }

  function Distance(a: int, b: int): nat
  {
    if a <= b then b - a else a - b
  }

  /** Of the times from 1970 to now, `m` is the one nearest to `mtime`. */
  ghost predicate Nearest(m: int, mtime: int, now: nat)
  {
    0 <= m <= now && forall x: int | 0 <= x <= now :: Distance(m, mtime) <= Distance(x, mtime)
  }

  /** The file `dest` is there with this content, and a time as near as may be. */
  ghost predicate Written(t: Tree, dest: Path, content: seq<byte>, mtime: int, now: nat)
  {
    dest in t && t[dest].File? && t[dest].content == content && Nearest(t[dest].mtime, mtime, now)
  }

  lemma ClampIsNearest(m: int, mtime: int, now: nat)
    ensures Nearest(m, mtime, now) <==> m == Clamp(mtime, now)
  {
    var c := Clamp(mtime, now);
    assert Distance(c, mtime) == Distance(c, mtime);
    if Nearest(m, mtime, now) {
      assert Distance(m, mtime) <= Distance(c, mtime);
    }
  }

  /** `write_file_atomic`: parents, then the file appears at once under its name. */
  function WriteFile(t: Tree, dest: Path, content: seq<byte>, mtime: int, now: nat): Fs
  {
    if dest == [] then Fs(t, Outside)
    else
      var r := CreateDirAll(t, Parent(dest));
      if !r.outcome.Done? then r
      else if dest in r.tree && r.tree[dest].Dir? then Fs(r.tree, Failed)
      else Fs(r.tree[dest := File(content, Clamp(mtime, now))], Done)
  }

  /** Links stay inside the root: no absolute target, no `..`. */
  predicate AcceptedTarget(target: string)
  {
    ResolveUnder(target).Some?
  }

  predicate ThroughLink(t: Tree, p: Path)
  {
    exists i | 0 <= i < |p| :: p[..i] in t && t[p[..i]].Link?
  }

  function RemoveFile(t: Tree, p: Path): Tree
  {
    if p in t && !t[p].Dir? then t - {p} else t
  }

  function PutLink(t: Tree, dest: Path, target: string): Fs
  {
    if !AcceptedTarget(target) then Fs(t, Failed)
    else if dest == [] || ThroughLink(t, dest) then Fs(t, Outside)
    else
      var gone := RemoveFile(t, dest);
      if target == "" || dest in gone || Parent(dest) !in gone || !gone[Parent(dest)].Dir? then Fs(gone, Failed)
      else Fs(gone[dest := Link(target)], Done)
  }

  datatype Kind = KFile | KDir | KLink

  /** The header and data of a PUT frame. */
  datatype Put = Put(path: Path, kind: Kind, link: string, mtime: int, delta: bool, blockLen: nat, len: nat, data: seq<byte>)

  function HdrBlockLen(h: nat): nat
  {
    if h == 0 then BLOCK_LEN else h
  }

  /** `fs::read(dest).unwrap_or_default()`, for a path that is not a link. */
  function Basis(t: Tree, p: Path): seq<byte>
  {
    if p in t && t[p].File? then t[p].content else []
  }

  function PutContent(t: Tree, put: Put): Option<seq<byte>>
  {
    if put.delta then DeltaOps.Patched(Basis(t, put.path), put.data, HdrBlockLen(put.blockLen), put.len)
    else Some(put.data)
  }

  function ApplyPut(t: Tree, put: Put, now: nat): Fs
  {
    match put.kind
    case KDir => CreateDirAll(t, put.path)
    case KLink => PutLink(t, put.path, put.link)
    case KFile =>
      if put.delta && put.path in t && t[put.path].Link? then Fs(t, Outside)
      else
        match PutContent(t, put)
        case None => Fs(t, Failed)
        case Some(content) => WriteFile(t, put.path, content, put.mtime, now)
  }

  lemma WriteFileOk(t: Tree, dest: Path, content: seq<byte>, mtime: int, now: nat)
    requires WellFormed(t) && dest != [] && ValidPath(dest) && DirsOnly(t, Parent(dest))
    requires dest in t ==> !t[dest].Dir?
    ensures var r := WriteFile(t, dest, content, mtime, now);
            && r.outcome.Done? && WellFormed(r.tree)
            && (forall q :: q in r.tree <==> q in t || IsPrefix(q, dest))
            && (forall q | q in r.tree && q != dest :: r.tree[q] == if q in t then t[q] else Dir)
            && Written(r.tree, dest, content, mtime, now)
  {
    ClampIsNearest(Clamp(mtime, now), mtime, now);
    var made := CreateDirAll(t, Parent(dest)).tree;
    assert ValidPath(Parent(dest));
    CreateDirAllOk(t, Parent(dest));
    forall q ensures IsPrefix(q, dest) <==> IsPrefix(q, Parent(dest)) || q == dest {
      PrefixOfParent(q, dest);
    }
    assert IsPrefix(Parent(dest), Parent(dest));
    KeepsShape(made, dest, File(content, Clamp(mtime, now)));
  }

  /** Putting something other than a directory where no directory is. */
  lemma KeepsShape(t: Tree, p: Path, n: Node)
    requires WellFormed(t) && p != [] && ValidPath(p)
    requires p in t ==> !t[p].Dir?
    requires Parent(p) in t && t[Parent(p)] == Dir
    ensures WellFormed(t[p := n])
  {
    forall c | c in t && c != [] ensures Parent(c) != p {}
    assert Parent(p) != p;
  }

  lemma NotThroughLink(t: Tree, dest: Path)
    requires WellFormed(t) && dest != [] && Parent(dest) in t && t[Parent(dest)] == Dir
    ensures !ThroughLink(t, dest)
  {
    forall i | 0 <= i < |dest| && dest[..i] in t ensures t[dest[..i]] == Dir {
      var q := dest[..i];
      if q != Parent(dest) { PrefixIsDir(t, Parent(dest), q); }
    }
  }

  lemma PutLinkOk(t: Tree, dest: Path, target: string)
    requires WellFormed(t) && dest != [] && ValidPath(dest)
    requires AcceptedTarget(target) && target != ""
    requires dest in t ==> !t[dest].Dir?
    requires Parent(dest) in t && t[Parent(dest)] == Dir
    ensures PutLink(t, dest, target) == Fs(t[dest := Link(target)], Done)
    ensures WellFormed(t[dest := Link(target)])
  {
    hide ResolveUnder, ThroughLink, WellFormed;
    NotThroughLink(t, dest);
    KeepsShape(t, dest, Link(target));
    assert Parent(dest) != dest;
    assert RemoveFile(t, dest)[dest := Link(target)] == t[dest := Link(target)];
  }

  /** A MKDIR frame: the first failure ends the sync. */
  function CreateAll(t: Tree, ps: seq<Path>): Fs
  {
    if ps == [] then Fs(t, Done)
    else
      var r := CreateAll(t, ps[..|ps| - 1]);
      if r.outcome.Done? then CreateDirAll(r.tree, ps[|ps| - 1]) else r
  }

  /** PUT frames, one after the other. */
  function ApplyPuts(t: Tree, puts: seq<Put>, now: nat): Fs
  {
    if puts == [] then Fs(t, Done)
    else
      var r := ApplyPuts(t, puts[..|puts| - 1], now);
      if r.outcome.Done? then ApplyPut(r.tree, puts[|puts| - 1], now) else r
  }

  lemma CreateAllStep(t: Tree, ps: seq<Path>, k: nat)
    requires k < |ps|
    ensures var r := CreateAll(t, ps[..k]);
            CreateAll(t, ps[..k + 1]) == if r.outcome.Done? then CreateDirAll(r.tree, ps[k]) else r
  {
    assert ps[..k + 1][..k] == ps[..k];
  }

  lemma ApplyPutsStep(t: Tree, puts: seq<Put>, k: nat, now: nat)
    requires k < |puts|
    ensures var r := ApplyPuts(t, puts[..k], now);
            ApplyPuts(t, puts[..k + 1], now) == if r.outcome.Done? then ApplyPut(r.tree, puts[k], now) else r
  {
    assert puts[..k + 1][..k] == puts[..k];
  }

  // ----- deletion -----

  predicate HasChild(t: Tree, p: Path)
  {
    exists c {:trigger Parent(c)} | c in t :: c != [] && Parent(c) == p
  }

  /** One path of a DELETE frame: `remove_dir` fails silently on a non-empty directory. */
  function DeleteOne(t: Tree, p: Path): Tree
  {
    if p in t && !(t[p].Dir? && HasChild(t, p)) then t - {p} else t
  }

  function DeleteAll(t: Tree, ps: seq<Path>): Tree
  {
    if ps == [] then t else DeleteOne(DeleteAll(t, ps[..|ps| - 1]), ps[|ps| - 1])
  }

  /** A directory that survives: something excluded lies below it. */
  ghost predicate Kept(t: Tree, ex: seq<Path>, q: Path)
  {
    q in t && t[q].Dir? && exists x | x in t :: IsAbove(q, x) && Excluded(x, ex)
  }

  /** A list that names, deepest first, everything unprotected below its members. */
  ghost predicate DeleteList(t: Tree, ds: seq<Path>, ex: seq<Path>)
  {
    && (forall d <- ds :: d in t && !Excluded(d, ex))
    && (forall d, c | d in ds && c in t && IsAbove(d, c) :: c in ds || Excluded(c, ex))
    && (forall i, j | 0 <= i < j < |ds| :: |ds[i]| >= |ds[j]|)
  }

  lemma ChildOf(t: Tree, d: Path, x: Path) returns (c: Path)
    requires WellFormed(t) && x in t && IsAbove(d, x)
    ensures c in t && c != [] && Parent(c) == d && IsPrefix(c, x)
  {
    c := x[..|d| + 1];
    assert Parent(c) == x[..|d|] == d;
    if c != x { PrefixIsDir(t, x, c); }
  }

  /** The tree after the first `k` deletions. */
  ghost predicate LeftAfter(t: Tree, ds: seq<Path>, ex: seq<Path>, k: nat, left: Tree)
    requires k <= |ds|
  {
    && (forall q | q in t :: q in left <==> (q !in ds[..k] || Kept(t, ex, q)))
    && (forall q | q in left :: q in t && left[q] == t[q])
  }

  /** A child still there when its directory's turn comes is or holds something excluded. */
  lemma ChildMeansKept(t: Tree, ds: seq<Path>, ex: seq<Path>, k: nat, left: Tree, c: Path)
    requires WellFormed(t) && DeleteList(t, ds, ex) && k < |ds| && LeftAfter(t, ds, ex, k, left)
    requires t[ds[k]].Dir? && c in left && c != [] && Parent(c) == ds[k]
    ensures Kept(t, ex, ds[k])
  {
    var d := ds[k];
    assert IsAbove(d, c);
    if !Excluded(c, ex) {
      assert d in ds && c in ds;
      var j :| 0 <= j < |ds| && ds[j] == c;
      assert j < k && ds[..k][j] == c;
      var x :| x in t && IsAbove(c, x) && Excluded(x, ex);
      assert IsAbove(d, x);
    }
  }

  lemma KeptMeansChild(t: Tree, ds: seq<Path>, ex: seq<Path>, k: nat, left: Tree)
    requires WellFormed(t) && DeleteList(t, ds, ex) && k < |ds| && LeftAfter(t, ds, ex, k, left)
    requires Kept(t, ex, ds[k])
    ensures HasChild(left, ds[k])
  {
    var d := ds[k];
    var x :| x in t && IsAbove(d, x) && Excluded(x, ex);
    var c := ChildOf(t, d, x);
    if c in ds[..k] {
      assert c in ds;
      assert c != x;
      assert IsAbove(c, x);
      PrefixIsDir(t, x, c);
    }
    assert c in left;
  }

  lemma DeleteStep(t: Tree, ds: seq<Path>, ex: seq<Path>, k: nat, left: Tree)
    requires WellFormed(t) && DeleteList(t, ds, ex) && k < |ds|
    requires WellFormed(left) && LeftAfter(t, ds, ex, k, left)
    ensures var next := DeleteOne(left, ds[k]);
            WellFormed(next) && LeftAfter(t, ds, ex, k + 1, next)
  {
    hide Excluded;
    var d, next := ds[k], DeleteOne(left, ds[k]);
    assert ds[..k + 1] == ds[..k] + [d] && d in ds;
    if t[d].Dir? {
      if HasChild(left, d) {
        var c :| c in left && c != [] && Parent(c) == d;
        ChildMeansKept(t, ds, ex, k, left, c);
      }
      if Kept(t, ex, d) {
        KeptMeansChild(t, ds, ex, k, left);
      }
    }
    DeleteKeepsShape(left, d);
  }

  lemma DeleteKeepsShape(t: Tree, p: Path)
    requires WellFormed(t)
    ensures WellFormed(DeleteOne(t, p))
  {}

  /** Deletion is exact: every listed path goes, except directories that hold
    * something excluded; nothing else changes. */
  lemma {:induction false} DeleteAllExact(t: Tree, ds: seq<Path>, ex: seq<Path>, k: nat)
    requires WellFormed(t) && DeleteList(t, ds, ex) && k <= |ds|
    ensures WellFormed(DeleteAll(t, ds[..k])) && LeftAfter(t, ds, ex, k, DeleteAll(t, ds[..k]))
  {
    hide WellFormed, DeleteList, DeleteOne;
    if k > 0 {
      DeleteAllExact(t, ds, ex, k - 1);
      assert ds[..k][..k - 1] == ds[..k - 1];
      DeleteStep(t, ds, ex, k - 1, DeleteAll(t, ds[..k - 1]));
    }
  }

  // ----- the order of deletions -----

  /** Byte order of strings. */
  predicate LexLess(a: string, b: string)
  {
    b != "" && (a == "" || a[0] < b[0] || (a[0] == b[0] && LexLess(a[1..], b[1..])))
  }

  /** The comparison of `deletes.sort_by`: more slashes first, then the greater path. */
  predicate Precedes(a: Path, b: Path)
  {
    var x, y := Join(a), Join(b);
    SlashCount(x) > SlashCount(y) || (SlashCount(x) == SlashCount(y) && !LexLess(x, y))
  }

  function Insert(p: Path, sorted: seq<Path>): seq<Path>
  {
    if sorted == [] then [p]
    else if Precedes(p, sorted[0]) then [p] + sorted
    else [sorted[0]] + Insert(p, sorted[1..])
  }

  /** `sort_by`, the standard library's sort, by insertion. */
  function SortDeletes(ps: seq<Path>): seq<Path>
  {
    if ps == [] then [] else Insert(ps[0], SortDeletes(ps[1..]))
  }

  ghost predicate DeepestFirst(ps: seq<Path>)
  {
    forall i, j | 0 <= i < j < |ps| :: |ps[i]| >= |ps[j]|
  }

  predicate BelowRoot(ps: seq<Path>)
  {
    forall i | 0 <= i < |ps| :: ps[i] != [] && ValidPath(ps[i])
  }

  lemma PrecedesIsDeeper(p: Path, q: Path)
    requires p != [] && ValidPath(p) && q != [] && ValidPath(q)
    ensures if Precedes(p, q) then |p| >= |q| else |q| >= |p|
  {
    SlashCountIsDepth(p);
    SlashCountIsDepth(q);
  }

  lemma {:induction false} InsertKeepsOrder(p: Path, sorted: seq<Path>)
    requires DeepestFirst(sorted) && p != [] && ValidPath(p) && BelowRoot(sorted)
    ensures DeepestFirst(Insert(p, sorted)) && BelowRoot(Insert(p, sorted))
    ensures forall q :: q in Insert(p, sorted) <==> q == p || q in sorted
  {
    hide Precedes;
    if sorted != [] {
      var s0, tail := sorted[0], sorted[1..];
      PrecedesIsDeeper(p, s0);
      assert sorted == [s0] + tail;
      if !Precedes(p, s0) {
        InsertKeepsOrder(p, tail);
        HeadIsDeepest(s0, Insert(p, tail), p, tail);
      }
    }
  }

  lemma HeadIsDeepest(s0: Path, rest: seq<Path>, p: Path, tail: seq<Path>)
    requires |s0| >= |p| && DeepestFirst([s0] + tail) && DeepestFirst(rest)
    requires forall q :: q in rest <==> q == p || q in tail
    ensures DeepestFirst([s0] + rest)
  {
    forall j | 0 <= j < |rest| ensures |s0| >= |rest[j]| {
      assert rest[j] in rest;
      if rest[j] != p {
        var i :| 0 <= i < |tail| && tail[i] == rest[j];
        assert ([s0] + tail)[i + 1] == rest[j] && ([s0] + tail)[0] == s0;
      }
    }
  }

  /** Sorting puts every descendant before its ancestors and loses nothing. */
  lemma {:induction false} SortDeletesOk(ps: seq<Path>)
    requires BelowRoot(ps)
    ensures DeepestFirst(SortDeletes(ps)) && BelowRoot(SortDeletes(ps))
    ensures forall q :: q in SortDeletes(ps) <==> q in ps
  {
    if ps != [] {
      SortDeletesOk(ps[1..]);
      InsertKeepsOrder(ps[0], SortDeletes(ps[1..]));
      assert ps == [ps[0]] + ps[1..];
    }
  }

  /** `a` comes first in a dictionary: up to some place both are equal, and there `a`
    * ends or has the smaller character. */
  ghost predicate Before(a: string, b: string)
  {
    exists k: nat :: BeforeAt(a, b, k)
  }

  predicate BeforeAt(a: string, b: string, k: nat)
  {
    k <= |a| && k < |b| && a[..k] == b[..k] && (k == |a| || a[k] < b[k])
  }

  lemma {:induction false} LexLessIs(a: string, b: string)
    ensures LexLess(a, b) <==> Before(a, b)
  {
    if b == "" {
    } else if a == "" || a[0] < b[0] {
      assert BeforeAt(a, b, 0);
    } else {
      LexLessIs(a[1..], b[1..]);
      if LexLess(a, b) {
        var k: nat :| BeforeAt(a[1..], b[1..], k);
        assert a[..k + 1] == [a[0]] + a[1..][..k] && b[..k + 1] == [b[0]] + b[1..][..k];
        assert BeforeAt(a, b, k + 1);
      }
      if Before(a, b) {
        var k: nat :| BeforeAt(a, b, k);
        assert k > 0 ==> a[..k][0] == b[..k][0];
        if k > 0 {
          assert a[1..][..k - 1] == a[..k][1..] && b[1..][..k - 1] == b[..k][1..];
          assert BeforeAt(a[1..], b[1..], k - 1);
        }
      }
    }
  }

  lemma {:induction false} LexSplits(a: string, b: string, c: string)
    requires LexLess(a, c)
    ensures LexLess(a, b) || LexLess(b, c)
  {
    if a != "" && b != "" && c != "" && a[0] == b[0] == c[0] {
      LexSplits(a[1..], b[1..], c[1..]);
    }
  }

  lemma {:induction false} LexOneWay(a: string, b: string)
    ensures !(LexLess(a, b) && LexLess(b, a))
  {
    if a != "" && b != "" { LexOneWay(a[1..], b[1..]); }
  }

  lemma PrecedesIsOrder(a: Path, b: Path, c: Path)
    ensures Precedes(a, b) || Precedes(b, a)
    ensures Precedes(a, b) && Precedes(b, c) ==> Precedes(a, c)
  {
    var x, y, z := Join(a), Join(b), Join(c);
    LexOneWay(x, y);
    if LexLess(x, z) { LexSplits(x, y, z); }
  }

  ghost predicate InOrder(ps: seq<Path>)
  {
    forall i, j | 0 <= i < j < |ps| :: Precedes(ps[i], ps[j])
  }

  lemma {:induction false} InsertSorts(p: Path, sorted: seq<Path>)
    requires InOrder(sorted)
    ensures InOrder(Insert(p, sorted)) && multiset(Insert(p, sorted)) == multiset(sorted) + multiset{p}
  {
    hide Precedes;
    if sorted != [] {
      var s0, tail := sorted[0], sorted[1..];
      assert sorted == [s0] + tail;
      PrecedesIsOrder(p, s0, s0);
      if Precedes(p, s0) {
        forall j | 0 <= j < |sorted| ensures Precedes(p, sorted[j]) {
          PrecedesIsOrder(p, s0, sorted[j]);
        }
      } else {
        InsertSorts(p, tail);
        var rest := Insert(p, tail);
        forall j | 0 <= j < |rest| ensures Precedes(s0, rest[j]) {
          assert rest[j] in multiset(rest);
          if rest[j] != p {
            assert rest[j] in tail;
            var i :| 0 <= i < |tail| && tail[i] == rest[j];
            assert sorted[i + 1] == rest[j] && sorted[0] == s0;
          }
        }
      }
    }
  }

  /** Sorting permutes, and puts the path with more slashes first, and of two with
    * equally many the one that comes later in a dictionary. */
  lemma {:induction false} SortDeletesSorts(ps: seq<Path>)
    ensures multiset(SortDeletes(ps)) == multiset(ps)
    ensures InOrder(SortDeletes(ps))
    ensures forall i, j | 0 <= i < j < |SortDeletes(ps)| ::
              var x, y := Join(SortDeletes(ps)[i]), Join(SortDeletes(ps)[j]);
              SlashCount(x) > SlashCount(y) || (SlashCount(x) == SlashCount(y) && !Before(x, y))
  {
    hide Before;
    if ps != [] {
      SortDeletesSorts(ps[1..]);
      InsertSorts(ps[0], SortDeletes(ps[1..]));
      assert ps == [ps[0]] + ps[1..];
    }
    var sorted := SortDeletes(ps);
    forall i, j | 0 <= i < j < |sorted|
      ensures var x, y := Join(sorted[i]), Join(sorted[j]);
              SlashCount(x) > SlashCount(y) || (SlashCount(x) == SlashCount(y) && !Before(x, y))
    {
      assert Precedes(sorted[i], sorted[j]);
      LexLessIs(Join(sorted[i]), Join(sorted[j]));
    }
  }
}
