/** Machine integers and their little-endian wire form. */
module Bytes {

  type byte = x: int | 0 <= x < 0x100
  newtype u64 = x: int | 0 <= x < 0x1_0000_0000_0000_0000

  datatype Option<+T> = None | Some(value: T)

  datatype Result<+T> = Ok(value: T) | Err(message: string)

  /** 256 to the power `k`: how many values `k` bytes can hold. */
  function Pow256(k: nat): (r: nat)
    ensures r > 0
  {
    if k == 0 then 1 else 0x100 * Pow256(k - 1)
  }

  /** The low `k` bytes of `n`, least significant first (`to_le_bytes`). */
  function ToLe(n: nat, k: nat): (s: seq<byte>)
    ensures |s| == k
  {
    if k == 0 then [] else [n % 0x100] + ToLe(n / 0x100, k - 1)
  }

  /** The number a little-endian byte string stands for (`from_le_bytes`). */
  function FromLe(s: seq<byte>): (n: nat)
    ensures n < Pow256(|s|)
  {
    if s == [] then 0 else s[0] + 0x100 * FromLe(s[1..])
  }

  lemma {:induction false} FromToLe(n: nat, k: nat)
    requires n < Pow256(k)
    ensures FromLe(ToLe(n, k)) == n
  {
    if k > 0 {
      FromToLe(n / 0x100, k - 1);
      assert ToLe(n, k)[1..] == ToLe(n / 0x100, k - 1);
    }
  }

  lemma {:induction false} ToFromLe(s: seq<byte>)
    ensures ToLe(FromLe(s), |s|) == s
  {
    if s != [] {
      ToFromLe(s[1..]);
      LowAndHigh(s[0], FromLe(s[1..]));
      assert s == [s[0]] + s[1..];
    }
  }

  lemma LowAndHigh(low: byte, high: nat)
    ensures (low + 0x100 * high) % 0x100 == low && (low + 0x100 * high) / 0x100 == high
  {}

  /** Least significant byte first. */
  lemma FourBytes(s: seq<byte>)
    requires |s| == 4
    ensures FromLe(s) == s[0] as int + 0x100 * s[1] as int + 0x1_0000 * s[2] as int + 0x100_0000 * s[3] as int
  {
    var t, u, v := s[1..], s[2..], s[3..];
    assert t[1..] == u && u[1..] == v && v[1..] == [];
    assert FromLe(v) == s[3] + 0x100 * FromLe([]) == s[3];
    assert FromLe(u) == s[2] + 0x100 * FromLe(v);
    assert FromLe(t) == s[1] + 0x100 * FromLe(u);
  }

  lemma EightBytes(s: seq<byte>)
    requires |s| == 8
    ensures FromLe(s) == FromLe(s[..4]) + 0x1_0000_0000 * FromLe(s[4..])
  {
    var t, u, v := s[1..], s[2..], s[3..];
    assert t[1..] == u && u[1..] == v && v[1..] == s[4..];
    assert FromLe(v) == s[3] + 0x100 * FromLe(s[4..]);
    assert FromLe(u) == s[2] + 0x100 * FromLe(v);
    assert FromLe(t) == s[1] + 0x100 * FromLe(u);
    FourBytes(s[..4]);
  }

  lemma PowersOf256()
    ensures Pow256(4) == 0x1_0000_0000
    ensures Pow256(8) == 0x1_0000_0000_0000_0000
  {
    assert Pow256(2) == 0x1_0000;
    assert Pow256(4) == 0x1_0000_0000;
    assert Pow256(6) == 0x1_0000_0000_0000;
  }

  function U64ToLe(n: u64): (s: seq<byte>)
    ensures |s| == 8
  {
    ToLe(n as int, 8)
  }

  function U64FromLe(s: seq<byte>): u64
    requires |s| == 8
  {
    PowersOf256();
    FromLe(s) as u64
  }

  lemma U64RoundTrip(n: u64)
    ensures U64FromLe(U64ToLe(n)) == n
  {
    PowersOf256();
    FromToLe(n as int, 8);
  }

  lemma U64WireRoundTrip(s: seq<byte>)
    requires |s| == 8
    ensures U64ToLe(U64FromLe(s)) == s
  {
    ToFromLe(s);
  }

  // ----- picking elements -----

  /** `ys` are the elements of `xs` that are kept, in the same order; `at` says where from. */
  ghost predicate PicksAt<T>(xs: seq<T>, keep: T -> bool, ys: seq<T>, at: seq<nat>)
  {
    && |at| == |ys|
    && (forall i, k | 0 <= i < k < |at| :: at[i] < at[k])
    && (forall i | 0 <= i < |at| :: at[i] < |xs| && ys[i] == xs[at[i]] && keep(ys[i]))
    && (forall k: nat {:trigger k in at} | k < |xs| && keep(xs[k]) :: k in at)
  }

  ghost predicate Picks<T>(xs: seq<T>, keep: T -> bool, ys: seq<T>)
  {
    exists at :: PicksAt(xs, keep, ys, at)
  }

  lemma PicksNothing<T>(keep: T -> bool)
    ensures Picks([], keep, [])
  {
    assert PicksAt([], keep, [], []);
  }

  lemma PicksNext<T>(xs: seq<T>, keep: T -> bool, ys: seq<T>, x: T)
    requires Picks(xs, keep, ys)
    ensures Picks(xs + [x], keep, ys + if keep(x) then [x] else [])
  {
    var at: seq<nat> :| PicksAt(xs, keep, ys, at);
    var more := xs + [x];
    if keep(x) {
      var next: seq<nat> := at + [|xs|];
      forall i, k | 0 <= i < k < |next| ensures next[i] < next[k] {
        assert next[i] == at[i];
        if k < |at| { assert next[k] == at[k]; }
      }
      forall k: nat | k < |more| && keep(more[k]) ensures k in next {
        if k == |xs| {
          assert next[|at|] == k;
        } else {
          assert keep(xs[k]) && k in at;
        }
      }
      assert PicksAt(more, keep, ys + [x], next);
    } else {
      forall k: nat | k < |more| && keep(more[k]) ensures k in at {
        assert k < |xs| && keep(xs[k]) && k in at;
      }
      assert PicksAt(more, keep, ys, at);
      assert ys + [] == ys;
    }
  }
}
