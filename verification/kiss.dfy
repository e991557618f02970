/**
 * The KISS codec of src/kiss.c: a streaming decoder into a bounded buffer and an escaping encoder.
 * The functions say what a call does to the decoder's state; the classes do it in place.
 */
module Kiss {
  import opened Bytes

  const FEND: byte := 0xC0
  const FESC: byte := 0xDB
  const TFEND: byte := 0xDC
  const TFESC: byte := 0xDD

  // ---- encoder ----

  function EscapeByte(x: byte): seq<byte> {
    if x == FEND then [FESC, TFEND] else if x == FESC then [FESC, TFESC] else [x]
  }

  function Escape(p: seq<byte>): seq<byte> {
    if p == [] then [] else EscapeByte(p[0]) + Escape(p[1..])
  }

  lemma {:induction false} EscapeNext(p: seq<byte>, i: nat, body: seq<byte>)
    requires i < |p| && Escape(p) == body + Escape(p[i..])
    ensures Escape(p) == (body + EscapeByte(p[i])) + Escape(p[i + 1..])
  {
    assert p[i..][1..] == p[i + 1..];
  }

  function Encode(p: seq<byte>): seq<byte> {
    [FEND] + Escape(p) + [FEND]
  }

  function EncodeAll(ps: seq<seq<byte>>): seq<byte> {
    if ps == [] then [] else Encode(ps[0]) + EncodeAll(ps[1..])
  }

  // ---- decoder ----

  /** `pending` is what buf_in[..len_in] holds. */
  datatype Dec = Dec(sync: bool, escape: bool, pending: seq<byte>) {
    predicate Valid() {
      && |pending| < MTU
      && (!sync ==> !escape && pending == [])
    }
  }

  const RESET: Dec := Dec(false, false, [])

  /** What one byte does: the next state, the frames handed to rnode_from_channel (none or one),
      and whether the buffer became full. */
  datatype Fed = Fed(state: Dec, frames: seq<seq<byte>>, full: bool)

  /** What one kiss_decode call does. `lost` is the part of the chunk it never looks at. */
  datatype Decoded = Decoded(state: Dec, frames: seq<seq<byte>>, lost: seq<byte>)

  function Unescape(b: byte): byte {
    if b == TFEND then FEND else if b == TFESC then FESC else b
  }

  /** The frame, if any, that the next FEND will hand over. */
  function Waiting(s: Dec): seq<seq<byte>> {
    if s.sync && s.pending != [] then [s.pending] else []
  }

  function Feed(s: Dec, b: byte): Fed {
    if b == FEND then Fed(Dec(true, s.escape, []), Waiting(s), false)
    else if !s.sync then Fed(s, [], false)
    else if b == FESC then Fed(s.(escape := true), [], false)
    else if |s.pending| + 1 >= MTU then Fed(RESET, [], true)
    else Fed(Dec(true, false, s.pending + [if s.escape then Unescape(b) else b]), [], false)
  }

  function After(frames: seq<seq<byte>>, d: Decoded): Decoded {
    d.(frames := frames + d.frames)
  }

  function Decode(s: Dec, bs: seq<byte>): Decoded
    decreases bs
  {
    if bs == [] then Decoded(s, [], [])
    else
      var f := Feed(s, bs[0]);
      if f.full then Decoded(f.state, f.frames, bs[1..])
      else After(f.frames, Decode(f.state, bs[1..]))
  }

  /** Successive kiss_decode calls, one per chunk that tcp_read obtains. */
  function DecodeChunks(s: Dec, cs: seq<seq<byte>>): (Dec, seq<seq<byte>>)
    decreases cs
  {
    if cs == [] then (s, [])
    else
      var d := Decode(s, cs[0]);
      var r := DecodeChunks(d.state, cs[1..]);
      (r.0, d.frames + r.1)
  }

  // ---- the code, in place ----

  class Decoder {
    const buf: array<byte>
    var len: nat
    var sync: bool
    var escape: bool

    ghost predicate Valid()
      reads this, buf
    {
      buf.Length == MTU && len < MTU && State().Valid()
    }

    ghost function State(): Dec
      requires len <= buf.Length
      reads this, buf
    {
      Dec(sync, escape, buf[..len])
    }

    constructor ()
      ensures Valid() && fresh(buf) && State() == RESET
    {
      buf := new byte[MTU];
      len, sync, escape := 0, false, false;
    }

    /** One iteration of the loop: the frame passed to rnode_from_channel, and whether to return. */
    method FeedByte(b: byte) returns (frames: seq<seq<byte>>, full: bool)
      requires Valid()
      modifies this, buf
      ensures Valid()
      ensures Fed(State(), frames, full) == Feed(old(State()), b)
    {
      frames, full := [], false;
      if b == FEND {
        if sync && len > 0 {
          frames := [buf[..len]];
        }
        len := 0;
        sync := true;
      } else if sync {
        if b == FESC {
          escape := true;
        } else {
          var x := b;
          if escape {
            if x == TFEND { x := FEND; }
            if x == TFESC { x := FESC; }
            escape := false;
          }
          buf[len] := x;
          len := len + 1;
          if len >= buf.Length {
            len := 0;
            escape := false;
            sync := false;
            full := true;
          }
        }
      }
    }

    method DecodeChunk(chunk: seq<byte>) returns (frames: seq<seq<byte>>)
      requires Valid()
      modifies this, buf
      ensures Valid()
      ensures State() == Decode(old(State()), chunk).state
      ensures frames == Decode(old(State()), chunk).frames
    {
      hide Feed;
      ghost var all := Decode(State(), chunk);
      frames := [];
      var i := 0;
      while i < |chunk|
        invariant 0 <= i <= |chunk|
        invariant Valid()
        invariant all == After(frames, Decode(State(), chunk[i..]))
      {
        assert chunk[i..][1..] == chunk[i + 1..];
        var out, full := FeedByte(chunk[i]);
        frames := frames + out;
        if full {
          return;
        }
        i := i + 1;
      }
    }
  }

  class Encoder {
    const buf: array<byte>

    constructor ()
      ensures fresh(buf) && buf.Length == MTU
    {
      buf := new byte[MTU];
    }

    /** The three-way branch inside the loop. */
    method Put(x: byte, at: nat) returns (index: nat)
      requires at + |EscapeByte(x)| <= buf.Length
      modifies buf
      ensures index == at + |EscapeByte(x)|
      ensures buf[..index] == old(buf[..at]) + EscapeByte(x)
    {
      index := at;
      if x == FEND {
        buf[index] := FESC; index := index + 1;
        buf[index] := TFEND; index := index + 1;
      } else if x == FESC {
        buf[index] := FESC; index := index + 1;
        buf[index] := TFESC; index := index + 1;
      } else {
        buf[index] := x; index := index + 1;
      }
    }

    /** The C code has no bound check: that the encoding fits is the caller's duty. */
    method EncodeFrame(p: seq<byte>) returns (sent: seq<byte>)
      requires buf.Length == MTU
      requires |Encode(p)| <= MTU
      modifies buf
      ensures sent == Encode(p)
    {
      assert Escape([]) == [];
      hide EscapeByte, Escape;
      var index := 0;
      buf[index] := FEND;
      index := index + 1;
      ghost var body: seq<byte> := [];
      var i := 0;
      while i < |p|
        invariant 0 <= i <= |p|
        invariant index == 1 + |body|
        invariant Escape(p) == body + Escape(p[i..])
        invariant buf[..index] == [FEND] + body
      {
        var x := p[i];
        EscapeNext(p, i, body);
        index := Put(x, index);
        body := body + EscapeByte(x);
        i := i + 1;
      }
      buf[index] := FEND;
      index := index + 1;
      sent := buf[..index];
    }
  }
}
