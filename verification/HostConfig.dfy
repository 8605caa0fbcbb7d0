/** The scan of ~/.ssh/config for StrictHostKeyChecking (src/sshcfg.rs), over
  * lines already split into their whitespace-separated words. */
module HostConfig {
  import opened Bytes
  import opened Glob

  type Word = seq<byte>
  type Line = seq<Word>

  const HASH: byte := 0x23
  const BANG: byte := 0x21
  const HOST: Word := [0x68, 0x6f, 0x73, 0x74]  // host
  const STRICT: Word :=  // stricthostkeychecking
    [0x73, 0x74, 0x72, 0x69, 0x63, 0x74, 0x68, 0x6f, 0x73, 0x74, 0x6b, 0x65, 0x79,
     0x63, 0x68, 0x65, 0x63, 0x6b, 0x69, 0x6e, 0x67]

  /** `A` to `Z`. */
  predicate Capital(c: byte)
  {
    0x41 <= c <= 0x5a
  }

  /** `r` is `w` with the letter 32 above in the place of each capital. */
  predicate Lowered(r: Word, w: Word)
  {
    |r| == |w| &&
    forall i | 0 <= i < |w| :: r[i] as int == if Capital(w[i]) then w[i] as int + 32 else w[i] as int
  }

  /** `to_ascii_lowercase`. */
  function Lower(w: Word): (r: Word)
    ensures Lowered(r, w)
  {
    seq(|w|, i requires 0 <= i < |w| => if Capital(w[i]) then (w[i] + 0x20) as byte else w[i])
  }

  /** Each letter of `w` is that of the keyword, or its capital. */
  predicate Spells(w: Word, kw: Word)
  {
    |w| == |kw| && forall i | 0 <= i < |kw| :: w[i] == kw[i] || (Capital(w[i]) && w[i] as int + 32 == kw[i] as int)
  }

  /** Comparing ignoring case is comparing in lower case. */
  lemma LowerSpells(w: Word, kw: Word)
    requires forall i | 0 <= i < |kw| :: !Capital(kw[i])
    ensures Lower(w) == kw <==> Spells(w, kw)
  {}

  /** The line is neither blank nor a comment and its first word is `kw` in any case. */
  predicate HasKeyword(line: Line, kw: Word)
  {
    line != [] && (line[0] == [] || line[0][0] != HASH) && Spells(line[0], kw)
  }

  predicate Negated(w: Word)
  {
    w != [] && w[0] == BANG
  }

  // ----- what a configuration says, given what the patterns match -----

  /** What the program takes a pattern to match. */
  ghost function ByLoop(alias: Word): Word -> bool
  {
    (pattern: Word) => GlobVerdict(pattern, alias)
  }

  /** What a pattern matches. */
  ghost function ByPattern(alias: Word): Word -> bool
  {
    (pattern: Word) => Matches(pattern, alias)
  }

  ghost predicate Agree(x: Word -> bool, y: Word -> bool)
  {
    forall pattern :: x(pattern) == y(pattern)
  }

  lemma LoopIsPattern(alias: Word)
    requires STAR !in alias
    ensures Agree(ByLoop(alias), ByPattern(alias))
  {
    hide GlobVerdict, Matches;
    forall pattern ensures ByLoop(alias)(pattern) == ByPattern(alias)(pattern) {
      GlobCorrect(pattern, alias);
    }
  }

  /** Some pattern hits and no negated pattern does. */
  ghost predicate Selects(patterns: seq<Word>, hits: Word -> bool)
  {
    && (exists w <- patterns :: !Negated(w) && hits(w))
    && !(exists w <- patterns :: Negated(w) && hits(w[1..]))
  }

  /** The order of the patterns in a Host line does not matter. */
  lemma SelectsIsOrderFree(x: seq<Word>, y: seq<Word>, hits: Word -> bool)
    requires multiset(x) == multiset(y)
    ensures Selects(x, hits) <==> Selects(y, hits)
  {
    assert forall w :: w in x <==> w in multiset(x);
    assert forall w :: w in y <==> w in multiset(y);
  }

  /** The nearest Host line above line `k` selects. */
  ghost predicate InBlock(lines: seq<Line>, k: nat, hits: Word -> bool)
    requires k <= |lines|
  {
    exists h | 0 <= h < k ::
      && HasKeyword(lines[h], HOST) && Selects(lines[h][1..], hits)
      && forall m | h < m < k :: !HasKeyword(lines[m], HOST)
  }

  ghost predicate Governed(lines: seq<Line>, k: nat, hits: Word -> bool)
    requires k < |lines|
  {
    HasKeyword(lines[k], STRICT) && InBlock(lines, k, hits)
  }

  /** `r` is the second word of the line in lower case, or None if it has none. */
  predicate IsValue(line: Line, r: Option<Word>)
  {
    if |line| > 1 then r.Some? && Lowered(r.value, line[1]) else r == None
  }

  /** Nothing in lower case is a capital, and only capitals change. */
  lemma ValueIsLower(line: Line, r: Option<Word>)
    requires IsValue(line, r) && r.Some?
    ensures forall i | 0 <= i < |r.value| :: !Capital(r.value[i]) && (r.value[i] != line[1][i] ==> Capital(line[1][i]))
  {}

  /** `r` is what the first governed line says, or None if there is none. */
  ghost predicate IsSetting(lines: seq<Line>, hits: Word -> bool, r: Option<Word>)
  {
    || (exists k | 0 <= k < |lines| ::
          && Governed(lines, k, hits) && IsValue(lines[k], r)
          && forall j | 0 <= j < k :: !Governed(lines, j, hits))
    || (r == None && forall j | 0 <= j < |lines| :: !Governed(lines, j, hits))
  }

  lemma SettingIsUnique(lines: seq<Line>, hits: Word -> bool, r1: Option<Word>, r2: Option<Word>)
    requires IsSetting(lines, hits, r1) && IsSetting(lines, hits, r2)
    ensures r1 == r2
  {
    forall w: Word, x: Word, y: Word | Lowered(x, w) && Lowered(y, w) ensures x == y {}
  }

  lemma SelectsAgree(patterns: seq<Word>, x: Word -> bool, y: Word -> bool)
    requires Agree(x, y)
    ensures Selects(patterns, x) <==> Selects(patterns, y)
  {}

  lemma GovernedAgree(lines: seq<Line>, k: nat, x: Word -> bool, y: Word -> bool)
    requires Agree(x, y) && k < |lines|
    ensures Governed(lines, k, x) <==> Governed(lines, k, y)
  {
    hide Selects, Agree, HasKeyword;
    forall h | 0 <= h < k ensures Selects(Tail(lines[h]), x) <==> Selects(Tail(lines[h]), y) {
      SelectsAgree(Tail(lines[h]), x, y);
    }
    HostHasTail();
  }

  function Tail(line: Line): Line
  {
    if line == [] then [] else line[1..]
  }

  lemma HostHasTail()
    ensures forall line: Line, kw: Word | HasKeyword(line, kw) :: Tail(line) == line[1..]
  {}

  lemma SettingAgrees(lines: seq<Line>, x: Word -> bool, y: Word -> bool, r: Option<Word>)
    requires Agree(x, y)
    ensures IsSetting(lines, x, r) <==> IsSetting(lines, y, r)
  {
    hide Governed, IsValue;
    forall k | 0 <= k < |lines| ensures Governed(lines, k, x) <==> Governed(lines, k, y) {
      GovernedAgree(lines, k, x, y);
    }
  }

  /** The pattern loop of a Host line. */
  method HostSelects(patterns: seq<Word>, alias: Word) returns (active: bool)
    ensures active <==> Selects(patterns, ByLoop(alias))
    ensures STAR !in alias ==> (active <==> Selects(patterns, ByPattern(alias)))
  {
    if STAR !in alias {
      LoopIsPattern(alias);
      SelectsAgree(patterns, ByLoop(alias), ByPattern(alias));
    }
    active := false;
    for i := 0 to |patterns|
      invariant active <==> exists w <- patterns[..i] :: !Negated(w) && GlobVerdict(w, alias)
      invariant !(exists w <- patterns[..i] :: Negated(w) && GlobVerdict(w[1..], alias))
    {
      var pat := patterns[i];
      assert patterns[..i + 1] == patterns[..i] + [pat];
      if Negated(pat) {
        var hit := GlobMatch(pat[1..], alias);
        if hit {
          active := false;
          assert pat in patterns;
          return;
        }
      } else {
        var hit := GlobMatch(pat, alias);
        if hit {
          active := true;
        }
      }
    }
    assert patterns[..|patterns|] == patterns;
  }

  /** A Host line opens a block that reaches to the next one. */
  lemma BlockStep(lines: seq<Line>, k: nat, hits: Word -> bool)
    requires k < |lines|
    ensures InBlock(lines, k + 1, hits) <==>
            if HasKeyword(lines[k], HOST) then Selects(lines[k][1..], hits) else InBlock(lines, k, hits)
  {
    if HasKeyword(lines[k], HOST) && InBlock(lines, k + 1, hits) {
      var h :| 0 <= h < k + 1 && HasKeyword(lines[h], HOST) && Selects(lines[h][1..], hits) &&
               forall m | h < m < k + 1 :: !HasKeyword(lines[m], HOST);
      assert h == k;
    }
  }

  method StrictHostKeySettingIn(lines: seq<Line>, alias: Word) returns (r: Option<Word>)
    ensures IsSetting(lines, ByLoop(alias), r)
    ensures STAR !in alias ==> IsSetting(lines, ByPattern(alias), r)
  {
    r := Scan(lines, alias);
    if STAR !in alias {
      LoopIsPattern(alias);
      SettingAgrees(lines, ByLoop(alias), ByPattern(alias), r);
    }
  }

  method Scan(lines: seq<Line>, alias: Word) returns (r: Option<Word>)
    ensures IsSetting(lines, ByLoop(alias), r)
  {
    ghost var hits := ByLoop(alias);
    var active := false;
    for k := 0 to |lines|
      invariant active <==> InBlock(lines, k, hits)
      invariant forall j | 0 <= j < k :: !Governed(lines, j, hits)
    {
      var line := lines[k];
      BlockStep(lines, k, hits);
      if line == [] || (line[0] != [] && line[0][0] == HASH) {
        continue;
      }
      LowerSpells(line[0], HOST);
      LowerSpells(line[0], STRICT);
      if Lower(line[0]) == HOST {
        active := HostSelects(line[1..], alias);
        continue;
      }
      if active && Lower(line[0]) == STRICT {
        assert Governed(lines, k, hits);
        return if |line| > 1 then Some(Lower(line[1])) else None;
      }
    }
    return None;
  }
}
