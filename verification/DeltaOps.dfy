/** The delta language of src/rsync.rs: its byte form, its meaning, and the
  * bounds-checked interpreter `patch`. */
module DeltaOps {
  import opened Bytes
  import opened Signatures
  import RollingChecksum

  const OP_COPY: byte := 1
  const OP_LITERAL: byte := 2
  const U32_LIMIT := 0x1_0000_0000

  datatype Op = Copy(ix: nat) | Literal(bytes: seq<byte>)

  // ----- byte form -----

  /** `ToLe(_, 4)` keeps the low four bytes: the truncating `as u32` casts. */
  function OpBytes(op: Op): (r: seq<byte>)
  {
    match op
    case Copy(ix) => [OP_COPY] + ToLe(ix, 4)
    case Literal(bytes) => [OP_LITERAL] + ToLe(|bytes|, 4) + bytes
  }

  function Encode(ops: seq<Op>): seq<byte>
  {
    if ops == [] then [] else OpBytes(ops[0]) + Encode(ops[1..])
  }

  /** The casts lose nothing for such an op. */
  predicate Fits32(op: Op)
  {
    match op
    case Copy(ix) => ix < U32_LIMIT
    case Literal(bytes) => |bytes| < U32_LIMIT
  }

  /** The first op of a byte string and the number of bytes it takes. */
  function DecodeOne(d: seq<byte>): (r: Option<(Op, nat)>)
    ensures r.Some? ==> 0 < r.value.1 <= |d|
  {
    if |d| < 5 then None
    else if d[0] == OP_COPY then
      Some((Copy(FromLe(d[1..5])), 5))
    else if d[0] == OP_LITERAL then
      var len := FromLe(d[1..5]);
      if 5 + len <= |d| then Some((Literal(d[5..5 + len]), 5 + len)) else None
    else None
  }

  /** All of a byte string as ops, if it is a sequence of whole ops. */
  function Decode(d: seq<byte>): Option<seq<Op>>
    decreases |d|
  {
    if d == [] then Some([])
    else
      match DecodeOne(d)
      case None => None
      case Some((op, n)) => Prepend([op], Decode(d[n..]))
  }

  function Prepend<T>(xs: seq<T>, rest: Option<seq<T>>): Option<seq<T>>
  {
    match rest
    case None => None
    case Some(ys) => Some(xs + ys)
  }

  lemma DecodeOneOfOp(op: Op, rest: seq<byte>)
    requires Fits32(op)
    ensures DecodeOne(OpBytes(op) + rest) == Some((op, |OpBytes(op)|))
  {
    PowersOf256();
    var d := OpBytes(op) + rest;
    match op
    case Copy(ix) =>
      assert d[1..5] == ToLe(ix, 4);
      FromToLe(ix, 4);
    case Literal(bytes) =>
      assert d[1..5] == ToLe(|bytes|, 4);
      FromToLe(|bytes|, 4);
      assert d[5..5 + |bytes|] == bytes;
  }

  lemma {:induction false} DecodeEncode(ops: seq<Op>)
    requires forall op <- ops :: Fits32(op)
    ensures Decode(Encode(ops)) == Some(ops)
  {
    if ops != [] {
      var first := OpBytes(ops[0]);
      var d := Encode(ops);
      DecodeOneOfOp(ops[0], Encode(ops[1..]));
      assert d[|first|..] == Encode(ops[1..]);
      DecodeEncode(ops[1..]);
      assert ops == [ops[0]] + ops[1..];
    }
  }

  /** Whatever parses is exactly the bytes of what it parses to. */
  lemma {:induction false} EncodeDecode(d: seq<byte>)
    ensures Decode(d).Some? ==> Encode(Decode(d).value) == d && forall op <- Decode(d).value :: Fits32(op)
    decreases |d|
  {
    if d != [] && DecodeOne(d).Some? {
      var (op, n) := DecodeOne(d).value;
      DecodeOneExact(d);
      EncodeDecode(d[n..]);
      if Decode(d[n..]).Some? {
        var rest := Decode(d[n..]).value;
        assert ([op] + rest)[1..] == rest;
        assert d == d[..n] + d[n..];
      }
    }
  }

  lemma DecodeOneExact(d: seq<byte>)
    requires DecodeOne(d).Some?
    ensures var (op, n) := DecodeOne(d).value; OpBytes(op) == d[..n] && Fits32(op)
  {
    PowersOf256();
    ToFromLe(d[1..5]);
    var len := FromLe(d[1..5]);
    assert d[..5] == [d[0]] + d[1..5];
    if d[0] == OP_LITERAL {
      assert d[..5 + len] == d[..5] + d[5..5 + len];
    }
  }

  /** A tag, four bytes least significant first, and the bytes of a literal. */
  lemma OpLayout(op: Op)
    requires Fits32(op)
    ensures var r := OpBytes(op);
            && |r| >= 5
            && var n := r[1] as int + 0x100 * r[2] as int + 0x1_0000 * r[3] as int + 0x100_0000 * r[4] as int;
               match op
               case Copy(ix) => |r| == 5 && r[0] == 1 && n == ix
               case Literal(bytes) => r[0] == 2 && n == |bytes| && r[5..] == bytes
  {
    PowersOf256();
    var n := match op case Copy(ix) => ix case Literal(bytes) => |bytes|;
    FromToLe(n, 4);
    FourBytes(ToLe(n, 4));
    assert OpBytes(op)[1..5] == ToLe(n, 4);
  }

  // ----- meaning -----

  /** What one op appends, if it stays inside `base`. */
  function OpOutput(base: seq<byte>, bl: nat, op: Op): Option<seq<byte>>
    requires LegalBlockLen(bl)
  {
    match op
    case Copy(ix) => if ix * bl < |base| then Some(Block(base, bl, ix)) else None
    case Literal(bytes) => Some(bytes)
  }

  function Output(base: seq<byte>, bl: nat, ops: seq<Op>): Option<seq<byte>>
    requires LegalBlockLen(bl)
  {
    if ops == [] then Some([])
    else
      match OpOutput(base, bl, ops[0])
      case None => None
      case Some(first) => Prepend(first, Output(base, bl, ops[1..]))
  }

  lemma {:induction false} OutputAppend(base: seq<byte>, bl: nat, xs: seq<Op>, ys: seq<Op>)
    requires LegalBlockLen(bl)
    ensures Output(base, bl, xs + ys) ==
            match Output(base, bl, xs) case None => None case Some(first) => Prepend(first, Output(base, bl, ys))
  {
    if xs == [] {
      assert xs + ys == ys;
      if Output(base, bl, ys).Some? { assert [] + Output(base, bl, ys).value == Output(base, bl, ys).value; }
    } else {
      assert (xs + ys)[1..] == xs[1..] + ys && (xs + ys)[0] == xs[0];
      OutputAppend(base, bl, xs[1..], ys);
      if OpOutput(base, bl, xs[0]).Some? && Output(base, bl, xs[1..]).Some? && Output(base, bl, ys).Some? {
        var a, b, c := OpOutput(base, bl, xs[0]).value, Output(base, bl, xs[1..]).value, Output(base, bl, ys).value;
        assert a + b + c == a + (b + c);
      }
    }
  }

  /** The file a delta denotes: the whole bytes parse, every copy starts inside
    * `base`, and the result has the announced length. */
  function Patched(base: seq<byte>, delta: seq<byte>, bl: nat, expectedLen: nat): Option<seq<byte>>
  {
    if !LegalBlockLen(bl) then None
    else
      match Decode(delta)
      case None => None
      case Some(ops) =>
        match Output(base, bl, ops)
        case None => None
        case Some(out) => if |out| == expectedLen then Some(out) else None
  }

  /** What one op may put into the output. */
  predicate IsPiece(base: seq<byte>, bl: nat, op: Op, piece: seq<byte>)
  {
    match op
    case Literal(bytes) => piece == bytes
    case Copy(ix) =>
      var from := ix * bl;
      from < |base| && piece == base[from..if from + bl <= |base| then from + bl else |base|]
  }

  /** `out` is the pieces of the ops, one after the other. */
  ghost predicate Pieces(base: seq<byte>, bl: nat, ops: seq<Op>, out: seq<byte>, cuts: seq<nat>)
  {
    && |cuts| == |ops| + 1 && cuts[0] == 0 && cuts[|ops|] == |out|
    && forall i | 0 <= i < |ops| :: PieceAt(base, bl, ops, out, cuts, i)
  }

  predicate PieceAt(base: seq<byte>, bl: nat, ops: seq<Op>, out: seq<byte>, cuts: seq<nat>, i: nat)
    requires i < |ops| && |cuts| == |ops| + 1
  {
    cuts[i] <= cuts[i + 1] <= |out| && IsPiece(base, bl, ops[i], out[cuts[i]..cuts[i + 1]])
  }

  lemma OpOutputIs(base: seq<byte>, bl: nat, op: Op)
    requires LegalBlockLen(bl)
    ensures forall piece :: OpOutput(base, bl, op) == Some(piece) <==> IsPiece(base, bl, op, piece)
    ensures OpOutput(base, bl, op).None? <==> op.Copy? && op.ix * bl >= |base|
  {}

  lemma PiecesGrow(base: seq<byte>, bl: nat, init: seq<Op>, rest: seq<byte>, cuts: seq<nat>, last: Op, out: seq<byte>)
    requires Pieces(base, bl, init, rest, cuts)
    requires |rest| <= |out| && out[..|rest|] == rest && IsPiece(base, bl, last, out[|rest|..])
    ensures Pieces(base, bl, init + [last], out, cuts + [|out|])
  {
    hide IsPiece;
    var ops, all := init + [last], cuts + [|out|];
    assert out[|rest|..|out|] == out[|rest|..];
    forall i | 0 <= i < |ops| ensures PieceAt(base, bl, ops, out, all, i) {
      if i < |init| {
        assert PieceAt(base, bl, init, rest, cuts, i);
        var piece := out[..|rest|][cuts[i]..cuts[i + 1]];
        assert piece == out[cuts[i]..cuts[i + 1]];
      }
    }
  }

  lemma {:induction false} OutputIs(base: seq<byte>, bl: nat, ops: seq<Op>) returns (cuts: seq<nat>)
    requires LegalBlockLen(bl)
    ensures Output(base, bl, ops).None? <==> exists i | 0 <= i < |ops| :: ops[i].Copy? && ops[i].ix * bl >= |base|
    ensures Output(base, bl, ops).Some? ==> Pieces(base, bl, ops, Output(base, bl, ops).value, cuts)
  {
    hide OpOutput, IsPiece;
    if ops == [] {
      cuts := [0];
    } else {
      var n := |ops| - 1;
      var init, last := ops[..n], ops[n];
      assert ops == init + [last];
      var before := OutputIs(base, bl, init);
      OutputAppend(base, bl, init, [last]);
      OpOutputIs(base, bl, last);
      OutputOfOne(base, bl, last);
      cuts := before;
      if Output(base, bl, ops).Some? {
        var out, rest := Output(base, bl, ops).value, Output(base, bl, init).value;
        cuts := before + [|out|];
        assert out == rest + OpOutput(base, bl, last).value;
        PiecesGrow(base, bl, init, rest, before, last, out);
      } else if Output(base, bl, init).None? {
        var i :| 0 <= i < n && init[i].Copy? && init[i].ix * bl >= |base|;
        assert ops[i] == init[i];
      }
    }
  }

  lemma OutputOfOne(base: seq<byte>, bl: nat, op: Op)
    requires LegalBlockLen(bl)
    ensures Output(base, bl, [op]) == OpOutput(base, bl, op)
  {
    assert [op][1..] == [];
    if OpOutput(base, bl, op).Some? {
      assert OpOutput(base, bl, op).value + [] == OpOutput(base, bl, op).value;
    }
  }

  /** What a delta denotes, said of the operations it is the bytes of. */
  ghost predicate Denotes(base: seq<byte>, delta: seq<byte>, bl: nat, expectedLen: nat, out: seq<byte>)
  {
    && 0 < bl <= 0x10_0000 && |out| == expectedLen
    && exists ops, cuts :: Encode(ops) == delta && (forall op <- ops :: Fits32(op)) && Pieces(base, bl, ops, out, cuts)
  }

  lemma {:induction false} CutsRise(base: seq<byte>, bl: nat, ops: seq<Op>, out: seq<byte>, cuts: seq<nat>, k: nat)
    requires Pieces(base, bl, ops, out, cuts) && k <= |ops|
    ensures forall i | 0 <= i <= k :: cuts[i] <= cuts[k] <= |out|
  {
    hide IsPiece;
    if k > 0 {
      assert PieceAt(base, bl, ops, out, cuts, k - 1);
      CutsRise(base, bl, ops, out, cuts, k - 1);
    }
  }

  /** The pieces fix the output. */
  lemma {:induction false} PiecesAre(base: seq<byte>, bl: nat, ops: seq<Op>, out: seq<byte>, cuts: seq<nat>)
    requires LegalBlockLen(bl) && Pieces(base, bl, ops, out, cuts)
    ensures Output(base, bl, ops) == Some(out)
    decreases |ops|
  {
    hide OpOutput, IsPiece;
    if ops != [] {
      var n := |ops| - 1;
      var init, last := ops[..n], ops[n];
      assert ops == init + [last];
      CutsRise(base, bl, ops, out, cuts, n);
      var rest, fewer := out[..cuts[n]], cuts[..n + 1];
      forall i | 0 <= i < n ensures PieceAt(base, bl, init, rest, fewer, i) {
        assert PieceAt(base, bl, ops, out, cuts, i);
        assert rest[cuts[i]..cuts[i + 1]] == out[cuts[i]..cuts[i + 1]];
      }
      PiecesAre(base, bl, init, rest, fewer);
      OutputAppend(base, bl, init, [last]);
      OpOutputIs(base, bl, last);
      OutputOfOne(base, bl, last);
      assert PieceAt(base, bl, ops, out, cuts, n);
      assert out == rest + out[cuts[n]..cuts[n + 1]];
    }
  }

  /** An output is denoted if and only if the delta is the bytes of operations whose
    * pieces it is made of. */
  lemma PatchedExactly(base: seq<byte>, delta: seq<byte>, bl: nat, expectedLen: nat, out: seq<byte>)
    ensures Patched(base, delta, bl, expectedLen) == Some(out) <==> Denotes(base, delta, bl, expectedLen, out)
  {
    if Patched(base, delta, bl, expectedLen) == Some(out) {
      var ops := Decode(delta).value;
      EncodeDecode(delta);
      var cuts := OutputIs(base, bl, ops);
      assert Encode(ops) == delta && Pieces(base, bl, ops, out, cuts);
    }
    if Denotes(base, delta, bl, expectedLen, out) {
      var ops, cuts :| Encode(ops) == delta && (forall op <- ops :: Fits32(op)) && Pieces(base, bl, ops, out, cuts);
      DecodeEncode(ops);
      PiecesAre(base, bl, ops, out, cuts);
    }
  }

  lemma PatchedMeans(base: seq<byte>, delta: seq<byte>, bl: nat, expectedLen: nat)
    ensures forall out :: Denotes(base, delta, bl, expectedLen, out) <==> Patched(base, delta, bl, expectedLen) == Some(out)
  {
    forall out ensures Denotes(base, delta, bl, expectedLen, out) <==> Patched(base, delta, bl, expectedLen) == Some(out) {
      PatchedExactly(base, delta, bl, expectedLen, out);
    }
  }

  // ----- the interpreter -----

  method Take(delta: seq<byte>, p: nat, n: nat) returns (r: Result<seq<byte>>, next: nat)
    requires p <= |delta|
    ensures r.Ok? <==> p + n <= |delta|
    ensures r.Ok? ==> next == p + n && r.value == delta[p..p + n]
    ensures r.Err? ==> next == p
  {
    var end := p + n;
    if end > |delta| {
      return Err("truncated delta"), p;
    }
    return Ok(delta[p..end]), end;
  }

  /** Where the interpreter stands: `done` are the ops before `p`, `out` their output. */
  ghost predicate PatchedSoFar(base: seq<byte>, delta: seq<byte>, bl: nat, p: nat, done: seq<Op>, out: seq<byte>)
  {
    && LegalBlockLen(bl)
    && p <= |delta|
    && Decode(delta) == Prepend(done, Decode(delta[p..]))
    && Output(base, bl, done) == Some(out)
  }

  lemma PatchStep(base: seq<byte>, delta: seq<byte>, bl: nat, p: nat, done: seq<Op>, out: seq<byte>)
    requires PatchedSoFar(base, delta, bl, p, done, out) && p < |delta|
    requires DecodeOne(delta[p..]).Some?
    ensures var (op, n) := DecodeOne(delta[p..]).value;
            OpOutput(base, bl, op).Some? ==>
              PatchedSoFar(base, delta, bl, p + n, done + [op], out + OpOutput(base, bl, op).value)
  {
    var (op, n) := DecodeOne(delta[p..]).value;
    assert delta[p..][n..] == delta[p + n..];
    if Decode(delta[p + n..]).Some? {
      assert done + ([op] + Decode(delta[p + n..]).value) == done + [op] + Decode(delta[p + n..]).value;
    }
    OutputAppend(base, bl, done, [op]);
    if OpOutput(base, bl, op).Some? {
      assert OpOutput(base, bl, op).value + [] == OpOutput(base, bl, op).value;
    }
  }

  /** An op that leaves `base`, or output beyond the announced length, can never
    * become a good patch, whatever follows: the early checks reject nothing. */
  lemma PatchDoomed(base: seq<byte>, delta: seq<byte>, bl: nat, p: nat, done: seq<Op>, out: seq<byte>, expectedLen: nat)
    requires PatchedSoFar(base, delta, bl, p, done, out) && p < |delta|
    requires NextOut(base, delta, bl, p, out, expectedLen) == None
    ensures Patched(base, delta, bl, expectedLen) == None
  {
    if Decode(delta[p..]).Some? {
      var (op, n) := DecodeOne(delta[p..]).value;
      var rest := Decode(delta[p..][n..]).value;
      OutputAppend(base, bl, done, [op] + rest);
      assert ([op] + rest)[1..] == rest;
    }
  }

  /** Output and position after the op at `p`, unless it is malformed, leaves
    * `base` or exceeds the announced length. */
  function NextOut(base: seq<byte>, delta: seq<byte>, bl: nat, p: nat, out: seq<byte>, expectedLen: nat): Option<(seq<byte>, nat)>
    requires LegalBlockLen(bl) && p < |delta|
  {
    match DecodeOne(delta[p..])
    case None => None
    case Some((op, n)) =>
      match OpOutput(base, bl, op)
      case None => None
      case Some(more) => if |out| + |more| <= expectedLen then Some((out + more, p + n)) else None
  }

  method CopyRange(base: seq<byte>, bl: nat, ix: nat) returns (r: Result<seq<byte>>)
    requires LegalBlockLen(bl)
    ensures r.Ok? <==> OpOutput(base, bl, Copy(ix)).Some?
    ensures r.Ok? ==> r.value == OpOutput(base, bl, Copy(ix)).value
  {
    var from := ix * bl;  // below 2^52, so the checked multiplication never fails
    if !(from < |base|) { return Err("delta copy out of range"); }
    var end := if from + bl <= |base| then from + bl else |base|;
    return Ok(base[from..end]);
  }

  /** One turn of the interpreter's loop. */
  method ApplyOp(base: seq<byte>, delta: seq<byte>, bl: nat, p: nat, out: seq<byte>, expectedLen: nat)
    returns (r: Result<seq<byte>>, next: nat)
    requires LegalBlockLen(bl) && p < |delta|
    ensures r.Ok? <==> NextOut(base, delta, bl, p, out, expectedLen).Some?
    ensures r.Ok? ==> (r.value, next) == NextOut(base, delta, bl, p, out, expectedLen).value
  {
    var t; t, next := Take(delta, p, 1);
    if t.value[0] != OP_COPY && t.value[0] != OP_LITERAL {
      return Err("unknown delta op"), next;
    }
    var t4; t4, next := Take(delta, next, 4);
    if t4.Err? { return t4, next; }
    assert delta[p..][1..5] == t4.value;
    if t.value[0] == OP_COPY {
      r := CopyRange(base, bl, FromLe(t4.value));
      if r.Ok? && |out| + |r.value| > expectedLen {
        return Err("delta expands past expected file length"), next;
      }
    } else {
      var len := FromLe(t4.value);
      if |out| + len > expectedLen {
        return Err("delta expands past expected file length"), next;
      }
      r, next := Take(delta, next, len);
      assert r.Ok? ==> delta[p..][5..5 + len] == r.value;
    }
    if r.Ok? { r := Ok(out + r.value); }
  }

  /** `patch` is exact: it succeeds on every delta that denotes a file of the
    * announced length, with that file, and on no other bytes. */
  method Patch(base: seq<byte>, delta: seq<byte>, bl: nat, expectedLen: nat) returns (r: Result<seq<byte>>)
    ensures r.Ok? <==> Patched(base, delta, bl, expectedLen).Some?
    ensures r.Ok? ==> r.value == Patched(base, delta, bl, expectedLen).value
    ensures r.Ok? ==> Denotes(base, delta, bl, expectedLen, r.value)
    ensures r.Err? ==> forall out :: !Denotes(base, delta, bl, expectedLen, out)
  {
    hide Denotes;
    PatchedMeans(base, delta, bl, expectedLen);
    if !(bl > 0 && bl <= RollingChecksum.MAX_BLOCK) {
      return Err("delta block_len out of range");
    }
    var out, p := [], 0;
    ghost var done := [];
    assert delta[0..] == delta;
    assert Decode(delta).Some? ==> [] + Decode(delta).value == Decode(delta).value;
    while p < |delta|
      invariant PatchedSoFar(base, delta, bl, p, done, out)
      invariant |out| <= expectedLen
      decreases |delta| - p
    {
      var step, next := ApplyOp(base, delta, bl, p, out, expectedLen);
      if step.Err? {
        PatchDoomed(base, delta, bl, p, done, out, expectedLen);
        return Err(step.message);
      }
      PatchStep(base, delta, bl, p, done, out);
      done := done + [DecodeOne(delta[p..]).value.0];
      out, p := step.value, next;
    }
    assert delta[p..] == [] && done + [] == done;
    if |out| != expectedLen {
      return Err("delta produced the wrong length");
    }
    return Ok(out);
  }
}
