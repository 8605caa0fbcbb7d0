/** Wire paths of src/agent.rs and the component sequences they stand for. */
module Paths {
  import opened Bytes

  type Name = string
  type Path = seq<Name>

  const SLASH := '/'

  predicate ValidName(n: Name)
  {
    n != "" && SLASH !in n && n != "." && n != ".."
  }

  predicate ValidPath(p: Path)
  {
    forall i | 0 <= i < |p| :: ValidName(p[i])
  }

  function Join(p: Path): string
  {
    if p == [] then ""
    else if |p| == 1 then p[0]
    else p[0] + "/" + Join(p[1..])
  }

  /** The pieces between slashes. */
  function Split(s: string): (pieces: seq<string>)
    ensures pieces != []
    ensures forall i | 0 <= i < |pieces| :: SLASH !in pieces[i]
  {
    if s == "" then [""]
    else
      var rest := Split(s[1..]);
      if s[0] == SLASH then [""] + rest else [[s[0]] + rest[0]] + rest[1..]
  }

  /** Empty and `.` pieces vanish; a `..` piece is refused. */
  function Normal(pieces: seq<string>): (r: Option<Path>)
    requires forall i | 0 <= i < |pieces| :: SLASH !in pieces[i]
    ensures r.Some? ==> ValidPath(r.value)
  {
    if pieces == [] then Some([])
    else
      match Normal(pieces[1..])
      case None => None
      case Some(rest) =>
        if pieces[0] == "" || pieces[0] == "." then Some(rest)
        else if pieces[0] == ".." then None
        else Some([pieces[0]] + rest)
  }

  /** `resolve_under`, relative to the root: never more than valid names below it. */
  function ResolveUnder(rel: string): (r: Option<Path>)
    ensures r.Some? ==> ValidPath(r.value)
  {
    if rel != "" && rel[0] == SLASH then None else Normal(Split(rel))
  }

  lemma {:induction false} NormalTogether(xs: seq<string>, ys: seq<string>)
    requires SlashFree(xs) && SlashFree(ys)
    ensures Normal(xs + ys) ==
            if Normal(xs).Some? && Normal(ys).Some? then Some(Normal(xs).value + Normal(ys).value) else None
  {
    if xs == [] {
      assert xs + ys == ys && Normal(xs) == Some([]);
      if Normal(ys).Some? { assert [] + Normal(ys).value == Normal(ys).value; }
    } else {
      assert (xs + ys)[1..] == xs[1..] + ys && (xs + ys)[0] == xs[0];
      NormalTogether(xs[1..], ys);
      if Normal(xs[1..]).Some? && Normal(ys).Some? {
        assert [xs[0]] + (Normal(xs[1..]).value + Normal(ys).value) == [xs[0]] + Normal(xs[1..]).value + Normal(ys).value;
      }
    }
  }

  function IsProper(): string -> bool
  {
    (piece: string) => piece != "" && piece != "."
  }

  /** Only `..` is refused; empty and `.` pieces vanish, the others stay in order. */
  lemma {:induction false} NormalPicks(pieces: seq<string>)
    requires SlashFree(pieces)
    ensures Normal(pieces).Some? <==> ".." !in pieces
    ensures Normal(pieces).Some? ==> Picks(pieces, IsProper(), Normal(pieces).value)
  {
    if pieces == [] {
      PicksNothing(IsProper());
    } else {
      var n := |pieces| - 1;
      var init, last := pieces[..n], pieces[n];
      assert pieces == init + [last];
      NormalPicks(init);
      NormalTogether(init, [last]);
      assert [last][1..] == [];
      assert Normal([]) == Some([]);
      if Normal(pieces).Some? {
        assert Normal([last]).value == if IsProper()(last) then [last] else [];
        PicksNext(init, IsProper(), Normal(init).value, last);
      }
    }
  }

  /** A path resolves if and only if it is not absolute and none of the pieces between
    * its slashes is `..`; it resolves to its proper pieces in order. */
  lemma ResolveExactly(rel: string, p: Path)
    ensures ResolveUnder(rel).Some? <==> (rel == "" || rel[0] != '/') && ".." !in Split(rel)
    ensures ResolveUnder(rel).Some? ==> Picks(Split(rel), IsProper(), ResolveUnder(rel).value)
    ensures Split(rel) == p <==> p != [] && SlashFree(p) && Join(p) == rel
  {
    NormalPicks(Split(rel));
    JoinSplit(rel);
    if p != [] && SlashFree(p) {
      SplitJoin(p);
    }
  }

  lemma {:induction false} SplitJoin(p: Path)
    requires p != [] && SlashFree(p)
    ensures Split(Join(p)) == p
  {
    if |p| == 1 {
      SplitName(p[0]);
    } else {
      SplitJoin(p[1..]);
      SplitAtSlash(p[0], Join(p[1..]));
    }
  }

  lemma {:induction false} SplitName(n: string)
    requires SLASH !in n
    ensures Split(n) == [n]
  {
    if n != "" {
      SplitName(n[1..]);
      assert [n[0]] + n[1..] == n;
    }
  }

  lemma {:induction false} SplitAtSlash(n: string, rest: string)
    requires SLASH !in n
    ensures Split(n + "/" + rest) == [n] + Split(rest)
  {
    var s := n + "/" + rest;
    if n == "" {
      assert s[1..] == rest;
    } else {
      assert s[1..] == n[1..] + "/" + rest && s[0] == n[0];
      SplitAtSlash(n[1..], rest);
      assert [n[0]] + n[1..] == n;
    }
  }

  /** A listed path survives the wire: the receiver resolves it to the same place. */
  lemma {:induction false} ResolveJoin(p: Path)
    requires ValidPath(p)
    ensures ResolveUnder(Join(p)) == Some(p)
  {
    if p == [] {
      assert Split("") == [""];
      assert Normal([""]) == Normal([""][1..]) == Some([]);
    } else {
      NormalSplitJoin(p);
      assert Join(p)[0] == p[0][0] && p[0][0] in p[0];
    }
  }

  lemma {:induction false} NormalSplitJoin(p: Path)
    requires ValidPath(p) && p != []
    ensures Normal(Split(Join(p))) == Some(p)
  {
    assert ValidName(p[0]);
    if |p| == 1 {
      SplitName(p[0]);
      assert [p[0]][1..] == [] && p == [p[0]] + [];
    } else {
      SplitAtSlash(p[0], Join(p[1..]));
      NormalSplitJoin(p[1..]);
      assert ([p[0]] + Split(Join(p[1..])))[1..] == Split(Join(p[1..]));
      assert p == [p[0]] + p[1..];
    }
  }

  // ----- what a walk reports -----

  const BACKSLASH := '\\'

  /** Pieces of a string that is split at slashes. */
  predicate SlashFree(p: Path)
  {
    forall i | 0 <= i < |p| :: SLASH !in p[i]
  }

  predicate Plain(p: Path)
  {
    forall i | 0 <= i < |p| :: BACKSLASH !in p[i]
  }

  /** `replace('\\', "/")`. */
  function Slashed(s: string): (r: string)
    ensures |r| == |s| && BACKSLASH !in r
    ensures forall i | 0 <= i < |s| :: r[i] == if s[i] == '\\' then '/' else s[i]
  {
    if s == "" then "" else [if s[0] == BACKSLASH then SLASH else s[0]] + Slashed(s[1..])
  }

  /** The pieces of the string under which a walk reports the path. */
  function Shown(p: Path): (r: Path)
    ensures SlashFree(r) && (p != [] ==> r != [])
  {
    if p == [] then [] else Split(Slashed(p[0])) + Shown(p[1..])
  }

  lemma {:induction false} JoinSplit(s: string)
    ensures Join(Split(s)) == s
  {
    if s != "" {
      JoinSplit(s[1..]);
      var rest := Split(s[1..]);
      if s[0] == SLASH {
        assert ([""] + rest)[1..] == rest;
        assert s == "" + "/" + s[1..];
      } else {
        assert ([[s[0]] + rest[0]] + rest[1..])[1..] == rest[1..];
        assert s == [s[0]] + s[1..];
      }
    }
  }

  lemma JoinOne(n: Name)
    ensures Join([n]) == n
  {}

  lemma {:induction false} JoinTogether(x: Path, y: Path)
    requires x != [] && y != []
    ensures Join(x + y) == Join(x) + "/" + Join(y)
  {
    assert (x + y)[1..] == x[1..] + y;
    if |x| > 1 {
      JoinTogether(x[1..], y);
      var a, b, c := x[0] + "/", Join(x[1..]), "/" + Join(y);
      assert a + (b + c) == a + b + c;
      assert b + "/" + Join(y) == b + c && a + b + "/" + Join(y) == a + b + c;
    } else {
      assert x[1..] + y == y;
    }
  }

  lemma {:induction false} SlashedTogether(x: string, y: string)
    ensures Slashed(x + "/" + y) == Slashed(x) + "/" + Slashed(y)
  {
    var s := x + "/" + y;
    if x == "" {
      assert s[1..] == y;
    } else {
      assert s[1..] == x[1..] + "/" + y;
      SlashedTogether(x[1..], y);
    }
  }

  /** It is the path with every backslash turned into a slash. */
  lemma {:induction false} ShownIsSlashed(p: Path)
    ensures Join(Shown(p)) == Slashed(Join(p))
  {
    if p != [] {
      ShownIsSlashed(p[1..]);
      JoinSplit(Slashed(p[0]));
      if |p| == 1 {
        assert Shown(p) == Split(Slashed(p[0])) + [] == Split(Slashed(p[0]));
      } else {
        JoinTogether(Split(Slashed(p[0])), Shown(p[1..]));
        SlashedTogether(p[0], Join(p[1..]));
      }
    }
  }

  lemma {:induction false} SlashedPlain(s: string)
    requires BACKSLASH !in s
    ensures Slashed(s) == s
  {
    if s != "" {
      SlashedPlain(s[1..]);
      assert s == [s[0]] + s[1..];
    }
  }

  /** A path without backslashes is reported as it is. */
  lemma {:induction false} PlainIsShown(p: Path)
    requires ValidPath(p) && Plain(p)
    ensures Shown(p) == p
  {
    if p != [] {
      assert ValidName(p[0]);
      SlashedPlain(p[0]);
      SplitName(p[0]);
      PlainIsShown(p[1..]);
      assert p == [p[0]] + p[1..];
    }
  }

  lemma {:induction false} SplitAvoids(s: string, c: char)
    requires c !in s
    ensures forall i | 0 <= i < |Split(s)| :: c !in Split(s)[i]
  {
    if s != "" { SplitAvoids(s[1..], c); }
  }

  /** No report has a backslash in it. */
  lemma {:induction false} ShownIsPlain(p: Path)
    ensures Plain(Shown(p))
  {
    if p != [] {
      SplitAvoids(Slashed(p[0]), BACKSLASH);
      ShownIsPlain(p[1..]);
    }
  }

  lemma {:induction false} ShownBelow(q: Path, p: Path)
    requires q <= p
    ensures Shown(q) <= Shown(p)
  {
    if q != [] {
      ShownBelow(q[1..], p[1..]);
    }
  }

  // ----- exclusion -----

  predicate StartsWith(s: string, prefix: string)
  {
    |prefix| <= |s| && s[..|prefix|] == prefix
  }

  /** One exclude of `excluded`, on strings. */
  predicate ExcludedBy(rel: string, e: string)
  {
    rel == e || StartsWith(rel, e + "/")
  }

  /** The test on strings is the prefix test on components: root-anchored, and
    * never cutting a name in two. */
  lemma {:induction false} ExcludedIsPrefix(p: Path, e: Path)
    requires SlashFree(p) && SlashFree(e) && p != [] && e != []
    ensures ExcludedBy(Join(p), Join(e)) <==> e <= p
    decreases |e|
  {
    var ps, es := Join(p), Join(e);
    if e <= p {
      JoinPrefix(p, e);
    }
    if ExcludedBy(ps, es) {
      FirstNameEnds(p);
      FirstNameEnds(e);
      HeadsAgree(p, e);
      if |e| > 1 {
        LongerHasTail(p, e);
        TailExcluded(p, e);
        ExcludedIsPrefix(p[1..], e[1..]);
        assert e == [e[0]] + e[1..] && p == [p[0]] + p[1..];
      }
    }
  }

  lemma {:induction false} JoinPrefix(p: Path, e: Path)
    requires e != [] && e <= p
    ensures ExcludedBy(Join(p), Join(e))
    decreases |e|
  {
    if |e| == 1 {
      if |p| > 1 { assert Join(p)[..|e[0]| + 1] == e[0] + "/"; } else { assert p == e; }
    } else {
      JoinPrefix(p[1..], e[1..]);
      var n := |e[0]| + 1;
      assert Join(p) == (e[0] + "/") + Join(p[1..]) && Join(e) == (e[0] + "/") + Join(e[1..]);
      if Join(p[1..]) != Join(e[1..]) {
        var m := |Join(e[1..])| + 1;
        assert Join(p)[..n + m] == (e[0] + "/") + Join(p[1..])[..m];
        assert Join(e) + "/" == (e[0] + "/") + (Join(e[1..]) + "/");
      }
    }
  }

  /** The first name is what precedes the first slash. */
  lemma FirstNameEnds(p: Path)
    requires SlashFree(p) && p != []
    ensures StartsWith(Join(p), p[0])
    ensures |p| == 1 ==> Join(p) == p[0]
    ensures |p| > 1 ==> |Join(p)| > |p[0]| && Join(p)[|p[0]|] == SLASH && Join(p)[|p[0]| + 1..] == Join(p[1..])
    ensures forall i | 0 <= i < |p[0]| :: Join(p)[i] != SLASH
  {
    forall i | 0 <= i < |p[0]| ensures Join(p)[i] != SLASH {
      assert Join(p)[i] == p[0][i] && p[0][i] in p[0];
    }
  }

  /** The first name of `s` has length `n`. */
  predicate HeadEnds(s: string, n: nat)
  {
    n <= |s| && (forall i | 0 <= i < n :: s[i] != SLASH) && (n < |s| ==> s[n] == SLASH)
  }

  lemma HeadEndIsUnique(s: string, n: nat, m: nat)
    requires HeadEnds(s, n) && HeadEnds(s, m)
    ensures n == m
  {}

  lemma HeadsAgree(p: Path, e: Path)
    requires SlashFree(p) && SlashFree(e) && p != [] && e != []
    requires ExcludedBy(Join(p), Join(e))
    ensures p[0] == e[0]
  {
    FirstNameEnds(p);
    FirstNameEnds(e);
    var ps, es, n, m := Join(p), Join(e), |p[0]|, |e[0]|;
    assert HeadEnds(ps, n);
    if ps != es {
      assert ps[..|es| + 1] == es + "/";
      forall i | 0 <= i <= |es| ensures ps[i] == (es + "/")[i] {
        assert ps[i] == ps[..|es| + 1][i];
      }
    }
    assert HeadEnds(ps, m);
    HeadEndIsUnique(ps, n, m);
    assert p[0] == ps[..n] && e[0] == es[..m];
    assert ps[..n] == es[..n];
  }

  lemma LongerHasTail(p: Path, e: Path)
    requires SlashFree(p) && SlashFree(e) && p != [] && |e| > 1 && p[0] == e[0]
    requires ExcludedBy(Join(p), Join(e))
    ensures |p| > 1
  {
    FirstNameEnds(p);
    FirstNameEnds(e);
    assert |Join(e)| > |e[0]|;
  }

  lemma TailExcluded(p: Path, e: Path)
    requires SlashFree(p) && SlashFree(e) && |p| > 1 && |e| > 1 && p[0] == e[0]
    requires ExcludedBy(Join(p), Join(e))
    ensures ExcludedBy(Join(p[1..]), Join(e[1..]))
  {
    FirstNameEnds(p);
    FirstNameEnds(e);
    var n := |e[0]| + 1;
    if Join(p) != Join(e) {
      var es := Join(e) + "/";
      assert es[n..] == Join(e[1..]) + "/";
      assert Join(p)[..|es|][n..] == Join(p)[n..][..|es| - n];
    }
  }

  /** What a walk leaves out for an exclude `e`, on the path as it is reported. */
  lemma ExclusionOf(p: Path, e: string)
    requires p != []
    ensures ExcludedBy(Slashed(Join(p)), e) <==> Split(e) <= Shown(p)
  {
    ShownIsSlashed(p);
    JoinSplit(e);
    ExcludedIsPrefix(Shown(p), Split(e));
  }

  // ----- depth -----

  /** `path.matches('/').count()`. */
  function SlashCount(s: string): nat
  {
    if s == "" then 0 else (if s[0] == SLASH then 1 else 0) + SlashCount(s[1..])
  }

  lemma {:induction false} SlashCountAppend(x: string, y: string)
    ensures SlashCount(x + y) == SlashCount(x) + SlashCount(y)
  {
    if x == "" {
      assert x + y == y;
    } else {
      assert (x + y)[1..] == x[1..] + y;
      SlashCountAppend(x[1..], y);
    }
  }

  lemma {:induction false} NameHasNoSlash(n: string)
    requires SLASH !in n
    ensures SlashCount(n) == 0
  {
    if n != "" { NameHasNoSlash(n[1..]); }
  }

  /** Slash count is depth: what the order of deletions goes by. */
  lemma {:induction false} SlashCountIsDepth(p: Path)
    requires ValidPath(p) && p != []
    ensures SlashCount(Join(p)) == |p| - 1
  {
    assert ValidName(p[0]);
    NameHasNoSlash(p[0]);
    if |p| > 1 {
      SlashCountIsDepth(p[1..]);
      SlashCountAppend(p[0] + "/", Join(p[1..]));
      SlashCountAppend(p[0], "/");
      assert SlashCount("/") == 1 + SlashCount("/"[1..]);
    }
  }
}
