/** The `*`/`?` matcher of src/sshcfg.rs: a loop that backtracks only to the
  * last star it has seen. */
module Glob {
  import opened Bytes

  const STAR: byte := 0x2a
  const QUESTION: byte := 0x3f

  /** What a pattern means: `*` is any run of bytes, `?` any one byte. */
  predicate Matches(p: seq<byte>, s: seq<byte>)
    decreases |p| + |s|
  {
    if p == [] then s == []
    else if p[0] == STAR then Matches(p[1..], s) || (s != [] && Matches(p, s[1..]))
    else s != [] && (p[0] == QUESTION || p[0] == s[0]) && Matches(p[1..], s[1..])
  }

  /** A single `*` matches everything, `?` every one byte, another byte itself. */
  lemma {:induction false} MatchesOne(c: byte, s: seq<byte>)
    ensures Matches([], s) <==> s == []
    ensures Matches([c], s) <==> c == STAR || (|s| == 1 && (c == QUESTION || s[0] == c))
  {
    assert [c][1..] == [];
    if s == [] {
      assert Matches([], s);
    } else {
      MatchesOne(c, s[1..]);
      assert Matches([], s[1..]) <==> s[1..] == [];
    }
  }

  predicate MatchesApart(p: seq<byte>, q: seq<byte>, s: seq<byte>, k: nat)
  {
    k <= |s| && Matches(p, s[..k]) && Matches(q, s[k..])
  }

  /** A pattern in two parts matches what splits into matches of the parts. */
  lemma {:induction false} MatchesTogether(p: seq<byte>, q: seq<byte>, s: seq<byte>)
    ensures Matches(p + q, s) <==> exists k: nat :: MatchesApart(p, q, s, k)
    decreases |p| + |s|
  {
    if p == [] {
      assert p + q == q && s[0..] == s;
      if Matches(q, s) { assert MatchesApart(p, q, s, 0); }
      if k: nat :| MatchesApart(p, q, s, k) { assert s[..k] == []; }
    } else {
      var rest := p[1..];
      assert (p + q)[1..] == rest + q && (p + q)[0] == p[0];
      MatchesTogether(rest, q, s);
      if s != [] {
        MatchesTogether(p, q, s[1..]);
        MatchesTogether(rest, q, s[1..]);
        forall k: nat | k < |s| ensures s[..k + 1][1..] == s[1..][..k] && s[k + 1..] == s[1..][k..] {}
      }
      if Matches(p + q, s) { SplitOff(p, q, s); }
      if k: nat :| MatchesApart(p, q, s, k) { PutTogether(p, q, s, k); }
    }
  }

  lemma SplitOff(p: seq<byte>, q: seq<byte>, s: seq<byte>)
    requires p != [] && Matches(p + q, s) && (p + q)[1..] == p[1..] + q
    requires Matches(p[1..] + q, s) ==> exists k: nat :: MatchesApart(p[1..], q, s, k)
    requires s != [] && Matches(p + q, s[1..]) ==> exists k: nat :: MatchesApart(p, q, s[1..], k)
    requires s != [] && Matches(p[1..] + q, s[1..]) ==> exists k: nat :: MatchesApart(p[1..], q, s[1..], k)
    ensures exists k: nat :: MatchesApart(p, q, s, k)
  {
    if p[0] == STAR && Matches(p[1..] + q, s) {
      var k: nat :| MatchesApart(p[1..], q, s, k);
      assert MatchesApart(p, q, s, k);
    } else {
      var k: nat :| MatchesApart(if p[0] == STAR then p else p[1..], q, s[1..], k);
      assert s[..k + 1][1..] == s[1..][..k] && s[k + 1..] == s[1..][k..];
      assert MatchesApart(p, q, s, k + 1);
    }
  }

  lemma PutTogether(p: seq<byte>, q: seq<byte>, s: seq<byte>, k: nat)
    requires p != [] && MatchesApart(p, q, s, k) && (p + q)[1..] == p[1..] + q
    requires forall k: nat :: MatchesApart(p[1..], q, s, k) ==> Matches(p[1..] + q, s)
    requires s != [] ==> forall k: nat :: MatchesApart(p, q, s[1..], k) ==> Matches(p + q, s[1..])
    requires s != [] ==> forall k: nat :: MatchesApart(p[1..], q, s[1..], k) ==> Matches(p[1..] + q, s[1..])
    ensures Matches(p + q, s)
  {
    if p[0] == STAR && Matches(p[1..], s[..k]) {
      assert MatchesApart(p[1..], q, s, k);
    } else {
      assert s[..k][1..] == s[1..][..k - 1] && s[k..] == s[1..][k - 1..];
      if p[0] == STAR {
        assert MatchesApart(p, q, s[1..], k - 1);
      } else {
        assert MatchesApart(p[1..], q, s[1..], k - 1);
      }
    }
  }

  /** The loop variables: `star` is the last star seen and the subject position
    * it currently extends to. */
  datatype Scan = Scan(pi: nat, si: nat, star: Option<(nat, nat)>)

  ghost predicate Sane(p: seq<byte>, s: seq<byte>, c: Scan)
  {
    && c.pi <= |p| && c.si <= |s|
    && match c.star
       case None => true
       case Some((sp, pos)) => sp < c.pi && p[sp] == STAR && pos <= c.si && c.pi - sp - 1 == c.si - pos
  }

  /** Lexicographic measure: star index, star position, subject index. */
  ghost function StarsLeft(p: seq<byte>, c: Scan): nat
    requires c.star.Some? ==> c.star.value.0 < |p|
  {
    match c.star case None => |p| + 1 case Some((sp, _)) => |p| - sp
  }

  ghost function StarRoom(s: seq<byte>, c: Scan): nat
    requires c.star.Some? ==> c.star.value.1 <= |s|
  {
    match c.star case None => 0 case Some((_, pos)) => |s| - pos
  }

  /** One turn of the loop, or None where it returns false. */
  function Turn(p: seq<byte>, s: seq<byte>, c: Scan): Option<Scan>
    requires c.pi <= |p| && c.si < |s|
  {
    if c.pi < |p| && (p[c.pi] == QUESTION || p[c.pi] == s[c.si]) then
      Some(Scan(c.pi + 1, c.si + 1, c.star))
    else if c.pi < |p| && p[c.pi] == STAR then
      Some(Scan(c.pi + 1, c.si, Some((c.pi, c.si))))
    else
      match c.star
      case Some((sp, pos)) => Some(Scan(sp + 1, pos + 1, Some((sp, pos + 1))))
      case None => None
  }

  lemma TurnIsSane(p: seq<byte>, s: seq<byte>, c: Scan)
    requires Sane(p, s, c) && c.si < |s|
    ensures var n := Turn(p, s, c);
            n.Some? ==>
              && Sane(p, s, n.value)
              && (StarsLeft(p, n.value), StarRoom(s, n.value), |s| - n.value.si) !=
                 (StarsLeft(p, c), StarRoom(s, c), |s| - c.si)
              && StarsLeft(p, n.value) <= StarsLeft(p, c)
              && (StarsLeft(p, n.value) == StarsLeft(p, c) ==>
                    StarRoom(s, n.value) < StarRoom(s, c) ||
                    (StarRoom(s, n.value) == StarRoom(s, c) && n.value.si > c.si))
  {}

  predicate AllStars(p: seq<byte>)
  {
    forall k | 0 <= k < |p| :: p[k] == STAR
  }

  lemma AllStarsStep(p: seq<byte>)
    requires p != []
    ensures AllStars(p) <==> p[0] == STAR && AllStars(p[1..])
  {
    if p[0] == STAR && AllStars(p[1..]) {
      forall k | 0 <= k < |p| ensures p[k] == STAR {
        if k > 0 { assert p[1..][k - 1] == STAR; }
      }
    }
  }

  /** The verdict of the loop started at `c`. */
  ghost function Verdict(p: seq<byte>, s: seq<byte>, c: Scan): bool
    requires Sane(p, s, c)
    decreases StarsLeft(p, c), StarRoom(s, c), |s| - c.si
  {
    if c.si == |s| then AllStars(p[c.pi..])
    else
      TurnIsSane(p, s, c);
      match Turn(p, s, c)
      case None => false
      case Some(n) => Verdict(p, s, n)
  }

  ghost function GlobVerdict(p: seq<byte>, s: seq<byte>): bool
  {
    Verdict(p, s, Scan(0, 0, None))
  }

  /** `glob_match`. On a subject without a star it decides the pattern's meaning. */
  method GlobMatch(p: seq<byte>, s: seq<byte>) returns (r: bool)
    ensures r == GlobVerdict(p, s)
    ensures STAR !in s ==> r == Matches(p, s)
  {
    GlobCorrect(p, s);
    var pi: nat, si: nat := 0, 0;
    var star: Option<nat>, starPos: nat := None, 0;
    while si < |s|
      invariant Sane(p, s, Scan(pi, si, Pair(star, starPos)))
      invariant Verdict(p, s, Scan(pi, si, Pair(star, starPos))) == GlobVerdict(p, s)
      decreases StarsLeft(p, Scan(pi, si, Pair(star, starPos))), StarRoom(s, Scan(pi, si, Pair(star, starPos))), |s| - si
    {
      ghost var before := Scan(pi, si, Pair(star, starPos));
      TurnIsSane(p, s, before);
      if pi < |p| && (p[pi] == QUESTION || p[pi] == s[si]) {
        pi := pi + 1;
        si := si + 1;
      } else if pi < |p| && p[pi] == STAR {
        star := Some(pi);
        starPos := si;
        pi := pi + 1;
      } else if star.Some? {
        pi := star.value + 1;
        starPos := starPos + 1;
        si := starPos;
      } else {
        return false;
      }
      assert Turn(p, s, before) == Some(Scan(pi, si, Pair(star, starPos)));
    }
    ghost var tail := p[pi..];
    ghost var start := pi;
    while pi < |p| && p[pi] == STAR
      invariant start <= pi <= |p|
      invariant AllStars(tail) == AllStars(p[pi..])
    {
      AllStarsStep(p[pi..]);
      assert p[pi..][1..] == p[pi + 1..];
      pi := pi + 1;
    }
    assert pi < |p| ==> p[pi..][0] == p[pi];
    return pi == |p|;
  }

  function Pair(star: Option<nat>, pos: nat): Option<(nat, nat)>
  {
    match star case None => None case Some(sp) => Some((sp, pos))
  }

  // ----- correctness -----

  lemma {:induction false} StarsMatchEmpty(p: seq<byte>)
    ensures Matches(p, []) <==> AllStars(p)
  {
    if p != [] {
      StarsMatchEmpty(p[1..]);
      AllStarsStep(p);
    }
  }

  /** A star can give up bytes it does not need: matching later implies matching earlier. */
  lemma {:induction false} StarAbsorbs(p: seq<byte>, s: seq<byte>, i: nat, j: nat)
    requires i <= j <= |s| && p != [] && p[0] == STAR && Matches(p, s[j..])
    ensures Matches(p, s[i..])
    decreases j - i
  {
    if i < j {
      StarAbsorbs(p, s, i + 1, j);
      assert s[i..][1..] == s[i + 1..];
    }
  }

  /** A star-free segment of the pattern consumes exactly its own length. */
  lemma {:induction false} SegmentConsumes(p: seq<byte>, k: nat, s: seq<byte>)
    requires k <= |p| && STAR !in p[..k] && Matches(p, s)
    ensures k <= |s| && Matches(p[k..], s[k..])
  {
    if k > 0 {
      assert p[0] == p[..k][0];
      assert p[1..][..k - 1] == p[..k][1..];
      SegmentConsumes(p[1..], k - 1, s[1..]);
      assert p[1..][k - 1..] == p[k..] && s[1..][k - 1..] == s[k..];
    } else {
      assert p[0..] == p && s[0..] == s;
    }
  }

  /** A match of a pattern that starts with a star skips some `k` bytes. */
  lemma {:induction false} StarSkips(p: seq<byte>, s: seq<byte>) returns (k: nat)
    requires p != [] && p[0] == STAR && Matches(p, s)
    ensures k <= |s| && Matches(p[1..], s[k..])
    decreases |s|
  {
    if Matches(p[1..], s) {
      k := 0;
      assert s[0..] == s;
    } else {
      k := StarSkips(p, s[1..]);
      assert s[1..][k..] == s[k + 1..];
      k := k + 1;
    }
  }

  /** What is still possible: the current attempt, or the last star swallowing more. */
  ghost predicate Alternatives(p: seq<byte>, s: seq<byte>, c: Scan)
    requires Sane(p, s, c)
  {
    || Matches(p[c.pi..], s[c.si..])
    || match c.star
       case None => false
       case Some((sp, pos)) => pos < |s| && Matches(p[sp..], s[pos + 1..])
  }

  /** Between the last star and `pi` there is no other star. */
  ghost predicate LastStar(p: seq<byte>, c: Scan)
  {
    match c.star
    case None => true
    case Some((sp, _)) => sp < c.pi <= |p| && STAR !in p[sp + 1..c.pi]
  }

  /** Forgetting an older star at a new one loses no match: had the older star
    * swallowed more, the segment between the stars would end further right, where
    * the new star can reach too. */
  lemma NewStarCovers(p: seq<byte>, s: seq<byte>, c: Scan)
    requires Sane(p, s, c) && LastStar(p, c) && c.pi < |p| && p[c.pi] == STAR && c.star.Some?
    requires c.star.value.1 < |s| && Matches(p[c.star.value.0..], s[c.star.value.1 + 1..])
    ensures Matches(p[c.pi..], s[c.si..])
  {
    var (sp, pos) := c.star.value;
    var n := c.pi - sp - 1;
    var k := StarSkips(p[sp..], s[pos + 1..]);
    assert p[sp..][1..] == p[sp + 1..] && s[pos + 1..][k..] == s[pos + 1 + k..];
    assert p[sp + 1..][..n] == p[sp + 1..c.pi];
    SegmentConsumes(p[sp + 1..], n, s[pos + 1 + k..]);
    assert p[sp + 1..][n..] == p[c.pi..] && s[pos + 1 + k..][n..] == s[pos + 1 + k + n..];
    StarAbsorbs(p[c.pi..], s, c.si, pos + 1 + k + n);
  }

  lemma LiteralTurnKeeps(p: seq<byte>, s: seq<byte>, c: Scan)
    requires Sane(p, s, c) && LastStar(p, c) && c.si < |s| && STAR !in s
    requires c.pi < |p| && (p[c.pi] == QUESTION || p[c.pi] == s[c.si])
    ensures var n := Scan(c.pi + 1, c.si + 1, c.star);
            Sane(p, s, n) && LastStar(p, n) && (Alternatives(p, s, n) <==> Alternatives(p, s, c))
  {
    var q, t := p[c.pi..], s[c.si..];
    assert p[c.pi] != STAR;
    assert q[0] == p[c.pi] && t[0] == s[c.si];
    assert q[1..] == p[c.pi + 1..] && t[1..] == s[c.si + 1..];
    if c.star.Some? {
      var sp := c.star.value.0;
      assert p[sp + 1..c.pi + 1] == p[sp + 1..c.pi] + [p[c.pi]];
    }
  }

  lemma StarTurnKeeps(p: seq<byte>, s: seq<byte>, c: Scan)
    requires Sane(p, s, c) && LastStar(p, c) && c.si < |s|
    requires c.pi < |p| && p[c.pi] == STAR
    ensures var n := Scan(c.pi + 1, c.si, Some((c.pi, c.si)));
            Sane(p, s, n) && LastStar(p, n) && (Alternatives(p, s, n) <==> Alternatives(p, s, c))
  {
    var q, t := p[c.pi..], s[c.si..];
    assert q[0] == STAR && q[1..] == p[c.pi + 1..] && t[1..] == s[c.si + 1..];
    if c.star.Some? && c.star.value.1 < |s| && Matches(p[c.star.value.0..], s[c.star.value.1 + 1..]) {
      NewStarCovers(p, s, c);
    }
  }

  lemma BacktrackKeeps(p: seq<byte>, s: seq<byte>, c: Scan)
    requires Sane(p, s, c) && LastStar(p, c) && c.si < |s| && c.star.Some?
    requires !Matches(p[c.pi..], s[c.si..])
    ensures var (sp, pos) := c.star.value;
            var n := Scan(sp + 1, pos + 1, Some((sp, pos + 1)));
            Sane(p, s, n) && LastStar(p, n) && (Alternatives(p, s, n) <==> Alternatives(p, s, c))
  {
    var (sp, pos) := c.star.value;
    var q, t := p[sp..], s[pos + 1..];
    assert q[0] == STAR && q[1..] == p[sp + 1..];
    if pos + 1 < |s| { assert t[1..] == s[pos + 2..]; }
  }

  /** A turn keeps what is possible, provided the subject has no star of its own. */
  lemma TurnKeepsAlternatives(p: seq<byte>, s: seq<byte>, c: Scan)
    requires Sane(p, s, c) && LastStar(p, c) && c.si < |s| && STAR !in s
    ensures match Turn(p, s, c)
            case None => !Alternatives(p, s, c)
            case Some(n) => Sane(p, s, n) && LastStar(p, n) && (Alternatives(p, s, n) <==> Alternatives(p, s, c))
  {
    if c.pi < |p| && (p[c.pi] == QUESTION || p[c.pi] == s[c.si]) {
      LiteralTurnKeeps(p, s, c);
    } else if c.pi < |p| && p[c.pi] == STAR {
      StarTurnKeeps(p, s, c);
    } else {
      assert !Matches(p[c.pi..], s[c.si..]);
      if c.star.Some? {
        BacktrackKeeps(p, s, c);
      }
    }
  }

  lemma {:induction false} VerdictIsAlternatives(p: seq<byte>, s: seq<byte>, c: Scan)
    requires Sane(p, s, c) && LastStar(p, c) && STAR !in s
    ensures Verdict(p, s, c) <==> Alternatives(p, s, c)
    decreases StarsLeft(p, c), StarRoom(s, c), |s| - c.si
  {
    if c.si == |s| {
      assert s[c.si..] == [];
      StarsMatchEmpty(p[c.pi..]);
      if c.star.Some? && c.star.value.1 < |s| {
        EndOfSubject(p, s, c);
      }
    } else {
      TurnIsSane(p, s, c);
      TurnKeepsAlternatives(p, s, c);
      if Turn(p, s, c).Some? {
        VerdictIsAlternatives(p, s, Turn(p, s, c).value);
      }
    }
  }

  /** At the end of the subject the last star has nothing more to offer. */
  lemma EndOfSubject(p: seq<byte>, s: seq<byte>, c: Scan)
    requires Sane(p, s, c) && LastStar(p, c) && c.si == |s| && c.star.Some? && c.star.value.1 < |s|
    ensures !Matches(p[c.star.value.0..], s[c.star.value.1 + 1..])
  {
    var (sp, pos) := c.star.value;
    var n := c.pi - sp - 1;
    if Matches(p[sp..], s[pos + 1..]) {
      var k := StarSkips(p[sp..], s[pos + 1..]);
      assert p[sp..][1..] == p[sp + 1..] && s[pos + 1..][k..] == s[pos + 1 + k..];
      assert p[sp + 1..][..n] == p[sp + 1..c.pi];
      SegmentConsumes(p[sp + 1..], n, s[pos + 1 + k..]);
    }
  }

  /** Backtracking to the last star alone is complete. */
  lemma GlobCorrect(p: seq<byte>, s: seq<byte>)
    ensures STAR !in s ==> GlobVerdict(p, s) == Matches(p, s)
  {
    if STAR !in s {
      VerdictIsAlternatives(p, s, Scan(0, 0, None));
      assert p[0..] == p && s[0..] == s;
    }
  }

  // ----- subjects that contain a star -----

  /** A pattern that the meaning accepts and the loop rejects: spell the subject
    * up to its first star, then a star, then one `?` for every byte left. */
  function Defeating(s: seq<byte>, j: nat): seq<byte>
    requires j < |s|
  {
    s[..j] + [STAR] + seq(|s| - j, _ => QUESTION)
  }

  lemma {:induction false} QuestionsMatch(s: seq<byte>)
    ensures Matches(seq(|s|, _ => QUESTION), s)
  {
    if s != [] {
      QuestionsMatch(s[1..]);
      assert seq(|s|, _ => QUESTION)[1..] == seq(|s[1..]|, _ => QUESTION);
    }
  }

  lemma {:induction false} LiteralPrefixMatches(s: seq<byte>, j: nat, q: seq<byte>)
    requires j <= |s| && STAR !in s[..j] && Matches(q, s[j..])
    ensures Matches(s[..j] + q, s)
  {
    if j > 0 {
      assert s[1..][..j - 1] == s[..j][1..] && s[1..][j - 1..] == s[j..];
      LiteralPrefixMatches(s[1..], j - 1, q);
      assert (s[..j] + q)[1..] == s[1..][..j - 1] + q && (s[..j] + q)[0] == s[0] == s[..j][0];
    } else {
      assert s[..0] + q == q && s[0..] == s;
    }
  }

  /** On the defeating pattern every turn takes the literal branch. */
  lemma {:induction false} LoopRejects(s: seq<byte>, j: nat, i: nat)
    requires j < |s| && s[j] == STAR && STAR !in s[..j] && i <= |s|
    ensures !Verdict(Defeating(s, j), s, Scan(i, i, None))
    decreases |s| - i
  {
    var p := Defeating(s, j);
    if i < |s| {
      assert p[i] == if i < j then s[i] else if i == j then STAR else QUESTION;
      LoopRejects(s, j, i + 1);
    } else {
      assert p[i] == QUESTION && p[i..][0] == QUESTION;
      assert !AllStars(p[i..]);
    }
  }

  lemma FirstStar(s: seq<byte>) returns (j: nat)
    requires STAR in s
    ensures j < |s| && s[j] == STAR && STAR !in s[..j]
  {
    j := 0;
    while s[j] != STAR
      invariant j < |s| && STAR !in s[..j] && STAR in s[j..]
      decreases |s| - j
    {
      assert s[j..] == [s[j]] + s[j + 1..];
      j := j + 1;
    }
  }

  /** Exactly which subjects the matcher is right about, for all patterns: those
    * without a star. The literal branch is tried before the star branch, so a star
    * in the subject can consume a star of the pattern. */
  lemma GlobExactSubjects(s: seq<byte>)
    ensures (forall p :: GlobVerdict(p, s) == Matches(p, s)) <==> STAR !in s
  {
    if STAR in s {
      var j := FirstStar(s);
      var p := Defeating(s, j);
      var q: seq<byte> := seq(|s| - j, _ => QUESTION);
      QuestionsMatch(s[j..]);
      assert ([STAR] + q)[1..] == q && q == seq(|s[j..]|, _ => QUESTION);
      assert Matches([STAR] + q, s[j..]);
      LiteralPrefixMatches(s, j, [STAR] + q);
      assert s[..j] + ([STAR] + q) == p;
      LoopRejects(s, j, 0);
      assert GlobVerdict(p, s) != Matches(p, s);
    } else {
      forall p ensures GlobVerdict(p, s) == Matches(p, s) {
        GlobCorrect(p, s);
      }
    }
  }
}
