/** Length-prefixed frames of src/agent.rs, read from a channel in arbitrary
  * chunks (the client) and from a byte stream (the agent). */
module Framing {
  import opened Bytes

  const MAX_FRAME := 0x2000_0000
  const MAX_HDR_JSON := 0x10_0000
  const U32_MAX := 0xffff_ffff

  /** The room for data beside the length and the text of a header. */
  const MAX_DATA := MAX_FRAME - MAX_HDR_JSON - 4

  datatype Frame = Frame(tag: byte, payload: seq<byte>)

  function FrameBytes(f: Frame): seq<byte>
  {
    ToLe(|f.payload|, 4) + [f.tag] + f.payload
  }

  /** Four bytes of length, least significant first, the tag and the payload. */
  lemma FrameLayout(f: Frame)
    requires |f.payload| <= U32_MAX
    ensures var r := FrameBytes(f);
            && |r| == 5 + |f.payload| && r[4] == f.tag && r[5..] == f.payload
            && r[0] as int + 0x100 * r[1] as int + 0x1_0000 * r[2] as int + 0x100_0000 * r[3] as int == |f.payload|
  {
    PowersOf256();
    FromToLe(|f.payload|, 4);
    FourBytes(ToLe(|f.payload|, 4));
  }

  function StreamOf(fs: seq<Frame>): seq<byte>
  {
    if fs == [] then [] else FrameBytes(fs[0]) + StreamOf(fs[1..])
  }

  // ----- what reading a stream yields -----

  datatype Outcome = Got(frame: Frame, rest: seq<byte>) | End | Failed

  datatype Parse = Whole(frame: Frame, rest: seq<byte>) | TooLarge | Partial

  function FirstFrame(s: seq<byte>): (r: Parse)
    ensures r.Whole? ==> |r.rest| < |s|
  {
    if |s| < 5 then Partial
    else
      var len := FromLe(s[..4]);
      if len > MAX_FRAME then TooLarge
      else if |s| < 5 + len then Partial
      else Whole(Frame(s[4], s[5..5 + len]), s[5 + len..])
  }

  /** The client: a closed channel is a clean end only on an empty buffer. */
  function ChannelOutcome(s: seq<byte>): Outcome
  {
    match FirstFrame(s)
    case Whole(f, rest) => Got(f, rest)
    case TooLarge => Failed
    case Partial => if s == [] then End else Failed
  }

  /** The agent: end of input inside the four length bytes counts as a clean end. */
  function StdOutcome(s: seq<byte>): Outcome
  {
    if |s| < 4 then End
    else
      match FirstFrame(s)
      case Whole(f, rest) => Got(f, rest)
      case _ => Failed
  }

  /** The two readers agree on a stream unless it is one to three bytes long, the
    * only leftovers that the agent drops silently. */
  lemma ReadersAgree(s: seq<byte>)
    ensures ChannelOutcome(s) == StdOutcome(s) <==> !(1 <= |s| <= 3)
  {}

  // ----- reassembly -----

  /** A frame that was written is read back exactly when it is not over the limit
    * of the reader; the writer's own limit is larger. */
  lemma FrameRoundTrip(f: Frame, rest: seq<byte>)
    requires |f.payload| <= U32_MAX
    ensures FirstFrame(FrameBytes(f) + rest) == Whole(f, rest) <==> |f.payload| <= MAX_FRAME
  {
    var s, n := FrameBytes(f) + rest, |f.payload|;
    PowersOf256();
    FromToLe(n, 4);
    assert s[..4] == ToLe(n, 4) && s[4] == f.tag;
    assert s[5..5 + n] == f.payload && s[5 + n..] == rest;
  }

  /** Read is exactly what a frame within the limit and the rest look like; too large is a
    * stream whose first five bytes announce more; anything else is still a fragment. */
  lemma FirstFrameExactly(s: seq<byte>)
    ensures forall f: Frame, rest :: FirstFrame(s) == Whole(f, rest) <==> |f.payload| <= 0x2000_0000 && s == FrameBytes(f) + rest
    ensures FirstFrame(s).TooLarge? <==>
            |s| >= 5 && s[0] as int + 0x100 * s[1] as int + 0x1_0000 * s[2] as int + 0x100_0000 * s[3] as int > 0x2000_0000
  {
    forall f: Frame, rest | |f.payload| <= 0x2000_0000 && s == FrameBytes(f) + rest ensures FirstFrame(s) == Whole(f, rest) {
      FrameRoundTrip(f, rest);
    }
    if |s| >= 5 {
      FourBytes(s[..4]);
      ToFromLe(s[..4]);
      var len := FromLe(s[..4]);
      if FirstFrame(s).Whole? {
        assert s == s[..4] + [s[4]] + s[5..5 + len] + s[5 + len..];
      }
    }
  }

  predicate AllFit(fs: seq<Frame>)
  {
    forall i | 0 <= i < |fs| :: |fs[i].payload| <= MAX_FRAME
  }

  /** Reading until the stream ends or breaks: the frames, and whether the end was clean. */
  function ReadAll(s: seq<byte>): (seq<Frame>, bool)
    decreases |s|
  {
    match ChannelOutcome(s)
    case Got(f, rest) => var (fs, clean) := ReadAll(rest); ([f] + fs, clean)
    case End => ([], true)
    case Failed => ([], false)
  }

  /** A stream of frames is read back whole, then ends cleanly, or with an error
    * when a fragment of a further frame is left over. */
  lemma {:induction false} ReassembleAll(fs: seq<Frame>, fragment: seq<byte>)
    requires AllFit(fs) && FirstFrame(fragment) == Partial
    ensures ReadAll(StreamOf(fs) + fragment) == (fs, fragment == [])
  {
    if fs == [] {
      assert StreamOf(fs) + fragment == fragment;
    } else {
      var rest := StreamOf(fs[1..]) + fragment;
      assert StreamOf(fs) + fragment == FrameBytes(fs[0]) + rest;
      FrameRoundTrip(fs[0], rest);
      ReassembleAll(fs[1..], fragment);
      assert fs == [fs[0]] + fs[1..];
    }
  }

  // ----- the client's reader -----

  /** What a channel delivers; the list running out is the channel ending. */
  datatype Event = Data(bytes: seq<byte>) | Stderr(bytes: seq<byte>) | Other | Close | IdleTimeout

  /** The payload bytes that arrive before the channel ends or stalls. */
  function Delivered(es: seq<Event>): seq<byte>
  {
    if es == [] then []
    else
      match es[0]
      case Data(bytes) => bytes + Delivered(es[1..])
      case Close => []
      case IdleTimeout => []
      case _ => Delivered(es[1..])
  }

  predicate Ends(e: Event)
  {
    e.Close? || e.IdleTimeout?
  }

  /** Data arrives in order until the channel closes or stalls; other messages add nothing. */
  lemma {:induction false} DeliveredTogether(es: seq<Event>, e: Event)
    ensures Delivered([]) == []
    ensures Delivered(es + [e]) ==
            if e.Data? && forall x <- es :: !Ends(x) then Delivered(es) + e.bytes else Delivered(es)
  {
    if es == [] {
      assert [e][1..] == [];
      if e.Data? { assert e.bytes + [] == e.bytes == [] + e.bytes; }
    } else {
      assert (es + [e])[1..] == es[1..] + [e] && es == [es[0]] + es[1..];
      assert (forall x <- es :: !Ends(x)) <==> !Ends(es[0]) && forall x <- es[1..] :: !Ends(x);
      DeliveredTogether(es[1..], e);
      if es[0].Data? && e.Data? {
        assert es[0].bytes + (Delivered(es[1..]) + e.bytes) == es[0].bytes + Delivered(es[1..]) + e.bytes;
      }
    }
  }

  predicate Stalls(es: seq<Event>)
  {
    if es == [] || es[0].Close? then false
    else es[0].IdleTimeout? || Stalls(es[1..])
  }

  lemma MoreBytes(s: seq<byte>, more: seq<byte>)
    ensures match FirstFrame(s)
            case Whole(f, rest) => FirstFrame(s + more) == Whole(f, rest + more)
            case TooLarge => FirstFrame(s + more) == TooLarge
            case Partial => true
  {
    var t := s + more;
    if |s| >= 5 {
      assert t[..4] == s[..4];
      var len := FromLe(s[..4]);
      if len <= MAX_FRAME && |s| >= 5 + len {
        assert t[5..5 + len] == s[5..5 + len] && t[5 + len..] == s[5 + len..] + more;
      }
    }
  }

  class ChannelIo {
    var buf: seq<byte>
    var incoming: seq<Event>
    var sent: seq<byte>

    constructor (es: seq<Event>)
      ensures Stream() == Delivered(es) && Stalled() == Stalls(es) && sent == []
    {
      buf, incoming, sent := [], es, [];
    }

    /** All the bytes still to be read, however they are chunked. */
    ghost function Stream(): seq<byte>
      reads this
    {
      buf + Delivered(incoming)
    }

    ghost predicate Stalled()
      reads this
    {
      Stalls(incoming)
    }

    /** The result depends on the bytes alone, not on how the channel splits them. */
    method ReadFrame() returns (r: Result<Option<Frame>>)
      modifies this`buf, this`incoming
      ensures match FirstFrame(old(Stream()))
              case Whole(f, rest) => r == Ok(Some(f)) && Stream() == rest && Stalled() == old(Stalled())
              case TooLarge => r.Err?
              case Partial => if old(Stalled()) || old(Stream()) != [] then r.Err? else r == Ok(None)
    {
      ghost var whole, stalled := Stream(), Stalled();
      while true
        invariant Stream() == whole && Stalled() == stalled
        decreases |incoming|
      {
        if |buf| >= 5 {
          MoreBytes(buf, Delivered(incoming));
          var len := FromLe(buf[..4]);
          if len > MAX_FRAME {
            return Err("frame too large");
          }
          if |buf| >= 5 + len {
            r := Ok(Some(Frame(buf[4], buf[5..5 + len])));
            buf := buf[5 + len..];
            return;
          }
        }
        if incoming == [] || incoming[0].Close? {
          assert buf + [] == buf;
          if buf == [] {
            return Ok(None);
          }
          return Err("agent channel closed with unprocessed bytes");
        }
        var msg := incoming[0];
        incoming := incoming[1..];
        match msg {
          case Data(bytes) =>
            assert buf + (bytes + Delivered(incoming)) == buf + bytes + Delivered(incoming);
            buf := buf + bytes;
          case IdleTimeout =>
            assert buf + [] == buf;
            return Err("agent idle");
          case _ =>
        }
      }
    }

    /** Calling `ReadFrame` until it ends yields the frames of the stream. */
    method ReadToEnd() returns (frames: seq<Frame>, clean: bool)
      modifies this`buf, this`incoming
      ensures frames == ReadAll(old(Stream())).0
      ensures clean <==> ReadAll(old(Stream())).1 && !old(Stalled())
    {
      frames := [];
      ghost var whole, stalled := Stream(), Stalled();
      assert frames + ReadAll(whole).0 == ReadAll(whole).0;
      while true
        invariant Stalled() == stalled && ReadAll(whole) == (frames + ReadAll(Stream()).0, ReadAll(Stream()).1)
        decreases |Stream()|
      {
        ghost var before := Stream();
        var r := ReadFrame();
        if r.Err? {
          assert frames + [] == frames;
          return frames, false;
        }
        if r.value.None? {
          assert frames + [] == frames;
          return frames, true;
        }
        ghost var rest := ReadAll(Stream()).0;
        assert frames + ([r.value.value] + rest) == frames + [r.value.value] + rest;
        frames := frames + [r.value.value];
      }
    }

    method WriteFrame(tag: byte, payload: seq<byte>) returns (ok: bool)
      modifies this`sent
      ensures ok <==> |payload| <= U32_MAX
      ensures sent == if ok then old(sent) + FrameBytes(Frame(tag, payload)) else old(sent)
    {
      if |payload| > U32_MAX {
        return false;
      }
      var v := ToLe(|payload|, 4);
      v := v + [tag];
      v := v + payload;
      sent := sent + v;
      return true;
    }
  }

  // ----- the agent's reader -----

  class StdIo {
    var input: seq<byte>

    /** `read_exact`: all `n` bytes or an end-of-file error. */
    method ReadExact(n: nat) returns (r: Option<seq<byte>>)
      modifies this
      ensures r.Some? <==> n <= |old(input)|
      ensures r.Some? ==> r.value == old(input)[..n] && input == old(input)[n..]
    {
      if n > |input| {
        input := [];
        return None;
      }
      r := Some(input[..n]);
      input := input[n..];
    }

    method ReadFrame() returns (r: Result<Option<Frame>>)
      modifies this
      ensures match StdOutcome(old(input))
              case Got(f, rest) => r == Ok(Some(f)) && input == rest
              case End => r == Ok(None)
              case Failed => r.Err?
    {
      ghost var s := input;
      var lenb := ReadExact(4);
      if lenb.None? {
        return Ok(None);
      }
      var len := FromLe(lenb.value);
      if len > MAX_FRAME {
        return Err("frame too large");
      }
      var tag := ReadExact(1);
      if tag.None? {
        return Err("unexpected end of file");
      }
      assert s[4..][..1] == [s[4]] && s[4..][1..] == s[5..];
      var payload := ReadExact(len);
      if payload.None? {
        return Err("unexpected end of file");
      }
      assert s[5..][..len] == s[5..5 + len] && s[5..][len..] == s[5 + len..];
      return Ok(Some(Frame(tag.value[0], payload.value)));
    }
  }

  // ----- header and data inside a payload -----

  /** `pack_hdr` on an encoded header. */
  function PackHdr(json: seq<byte>, data: seq<byte>): seq<byte>
  {
    ToLe(|json|, 4) + json + data
  }

  /** `unpack_hdr` up to the decoding of the header. */
  function UnpackHdr(payload: seq<byte>): Option<(seq<byte>, seq<byte>)>
  {
    if |payload| < 4 then None
    else
      var jlen := FromLe(payload[..4]);
      if jlen > MAX_HDR_JSON || |payload| < 4 + jlen then None
      else Some((payload[4..4 + jlen], payload[4 + jlen..]))
  }

  /** Separated is exactly what was put together with a header within its limit. */
  lemma UnpackExactly(payload: seq<byte>)
    ensures forall json, data :: UnpackHdr(payload) == Some((json, data)) <==>
                                 |json| <= 0x10_0000 && payload == PackHdr(json, data)
  {
    forall json, data | |json| <= 0x10_0000 && payload == PackHdr(json, data)
      ensures UnpackHdr(payload) == Some((json, data))
    {
      PowersOf256();
      FromToLe(|json|, 4);
      assert payload[..4] == ToLe(|json|, 4);
      assert payload[4..4 + |json|] == json && payload[4 + |json|..] == data;
    }
    if UnpackHdr(payload).Some? {
      var jlen := FromLe(payload[..4]);
      ToFromLe(payload[..4]);
      assert payload == payload[..4] + payload[4..4 + jlen] + payload[4 + jlen..];
    }
  }

  /** Four bytes of length, least significant first, the header and the data. */
  lemma HdrLayout(json: seq<byte>, data: seq<byte>)
    requires |json| <= U32_MAX
    ensures var r := PackHdr(json, data);
            && |r| == 4 + |json| + |data| && r[4..4 + |json|] == json && r[4 + |json|..] == data
            && r[0] as int + 0x100 * r[1] as int + 0x1_0000 * r[2] as int + 0x100_0000 * r[3] as int == |json|
  {
    PowersOf256();
    FromToLe(|json|, 4);
    FourBytes(ToLe(|json|, 4));
  }

  lemma HdrRoundTrip(json: seq<byte>, data: seq<byte>)
    requires |json| <= U32_MAX
    ensures UnpackHdr(PackHdr(json, data)) == Some((json, data)) <==> |json| <= MAX_HDR_JSON
  {
    var p, n := PackHdr(json, data), |json|;
    PowersOf256();
    FromToLe(n, 4);
    assert p[..4] == ToLe(n, 4) && p[4..4 + n] == json && p[4 + n..] == data;
  }

  /** A frame with data is read if and only if header and data together are not over
    * the limit; otherwise the reader gives up. */
  lemma DataFrameExact(tag: byte, json: seq<byte>, data: seq<byte>, rest: seq<byte>)
    requires 4 + |json| + |data| <= U32_MAX
    ensures var f := Frame(tag, PackHdr(json, data));
            if 4 + |json| + |data| <= MAX_FRAME then FirstFrame(FrameBytes(f) + rest) == Whole(f, rest)
            else FirstFrame(FrameBytes(f) + rest) == TooLarge
  {
    var f := Frame(tag, PackHdr(json, data));
    FrameRoundTrip(f, rest);
    PowersOf256();
    FromToLe(|f.payload|, 4);
    assert (FrameBytes(f) + rest)[..4] == ToLe(|f.payload|, 4);
  }

  /** The frame is read back. */
  predicate Readable(tag: byte, json: seq<byte>, data: seq<byte>)
  {
    var f := Frame(tag, PackHdr(json, data));
    FirstFrame(FrameBytes(f)) == Whole(f, [])
  }

  lemma ReadableExact(tag: byte, json: seq<byte>, data: seq<byte>)
    requires 4 + |json| + |data| <= U32_MAX
    ensures Readable(tag, json, data) <==> 4 + |json| + |data| <= MAX_FRAME
  {
    DataFrameExact(tag, json, data, []);
    var s := FrameBytes(Frame(tag, PackHdr(json, data)));
    assert s + [] == s;
  }

  /** MAX_DATA is the most that fits beside every header. */
  lemma MaxDataExact(tag: byte, data: seq<byte>)
    requires 4 + MAX_HDR_JSON + |data| <= U32_MAX
    ensures (forall json: seq<byte> | |json| <= MAX_HDR_JSON :: Readable(tag, json, data)) <==> |data| <= MAX_DATA
  {
    hide Readable;
    forall json: seq<byte> | |json| <= MAX_HDR_JSON
      ensures Readable(tag, json, data) <==> 4 + |json| + |data| <= MAX_FRAME
    {
      ReadableExact(tag, json, data);
    }
    var longest: seq<byte> := seq(MAX_HDR_JSON, _ => 0);
    assert |longest| == MAX_HDR_JSON;
    assert Readable(tag, longest, data) <==> 4 + |longest| + |data| <= MAX_FRAME;
  }

  /** A header and its data survive the way through both layers. */
  lemma DataFrameRoundTrip(tag: byte, json: seq<byte>, data: seq<byte>, rest: seq<byte>)
    requires |json| <= MAX_HDR_JSON && |data| <= MAX_DATA
    ensures var f := Frame(tag, PackHdr(json, data));
            FirstFrame(FrameBytes(f) + rest) == Whole(f, rest) && UnpackHdr(f.payload) == Some((json, data))
  {
    FrameRoundTrip(Frame(tag, PackHdr(json, data)), rest);
    HdrRoundTrip(json, data);
  }
}
