/** What the KISS codec of src/kiss.c is for: round trips, resynchronisation, indifference to chunking. */
module KissLaws {
  import opened Bytes
  import opened Kiss

  // ---- the encoding ----

  lemma {:induction false} EscapedHasNoFend(p: seq<byte>)
    ensures FEND !in Escape(p)
  {
    if p != [] { EscapedHasNoFend(p[1..]); }
  }

  lemma {:induction false} EscapedLength(p: seq<byte>)
    ensures |p| <= |Escape(p)| <= 2 * |p|
  {
    if p != [] { EscapedLength(p[1..]); }
  }

  /** The wire format, byte by byte: 0xC0 delimits, 0xDB escapes, and 0xC0 and 0xDB travel as 0xDB 0xDC
      and 0xDB 0xDD. */
  lemma {:induction false} WireFormat(p: seq<byte>, x: byte)
    ensures Encode(p) == [0xC0] + Escape(p) + [0xC0] && Escape([]) == []
    ensures Escape(p + [x]) ==
            Escape(p) + if x == 0xC0 then [0xDB, 0xDC] else if x == 0xDB then [0xDB, 0xDD] else [x]
    decreases p
  {
    if p == [] {
      assert [x][1..] == [];
      assert Escape([x]) == EscapeByte(x) + [];
      assert p + [x] == [x] && [] + EscapeByte(x) == EscapeByte(x);
    } else {
      WireFormat(p[1..], x);
      assert (p + [x])[1..] == p[1..] + [x];
    }
  }

  // ---- the decoder ----

  lemma {:induction false} DecodeKeepsValid(s: Dec, bs: seq<byte>)
    requires s.Valid()
    ensures Decode(s, bs).state.Valid()
    ensures forall f | f in Decode(s, bs).frames :: 1 <= |f| < 1024
    decreases bs
  {
    if bs != [] && !Feed(s, bs[0]).full { DecodeKeepsValid(Feed(s, bs[0]).state, bs[1..]); }
  }

  predicate Overflows(s: Dec, bs: seq<byte>)
    decreases bs
  {
    bs != [] && (Feed(s, bs[0]).full || Overflows(Feed(s, bs[0]).state, bs[1..]))
  }

  lemma {:induction false} DecodeComposes(s: Dec, a: seq<byte>, b: seq<byte>)
    requires !Overflows(s, a)
    ensures Decode(s, a + b) == After(Decode(s, a).frames, Decode(Decode(s, a).state, b))
    ensures Decode(s, a).lost == []
    decreases a
  {
    if a == [] {
      assert a + b == b;
    } else {
      assert (a + b)[1..] == a[1..] + b;
      var f := Feed(s, a[0]);
      DecodeComposes(f.state, a[1..], b);
      var d := Decode(f.state, a[1..]);
      var e := Decode(d.state, b);
      assert f.frames + (d.frames + e.frames) == (f.frames + d.frames) + e.frames;
    }
  }

  lemma {:induction false} DecodeHides(s: Dec, a: seq<byte>, b: seq<byte>)
    requires Overflows(s, a)
    ensures Decode(s, a).state == RESET
    ensures Decode(s, a + b) == Decode(s, a).(lost := Decode(s, a).lost + b)
    decreases a
  {
    assert (a + b)[1..] == a[1..] + b;
    if !Feed(s, a[0]).full { DecodeHides(Feed(s, a[0]).state, a[1..], b); }
  }

  /** A chunk that overflows the buffer hides everything behind it; any other chunk composes. */
  lemma {:induction false} DecodeConcat(s: Dec, a: seq<byte>, b: seq<byte>)
    ensures !Overflows(s, a) ==> Decode(s, a + b) == After(Decode(s, a).frames, Decode(Decode(s, a).state, b))
    ensures !Overflows(s, a) ==> Decode(s, a).lost == []
    ensures Overflows(s, a) ==> Decode(s, a).state == RESET
    ensures Overflows(s, a) ==> Decode(s, a + b) == Decode(s, a).(lost := Decode(s, a).lost + b)
  {
    if Overflows(s, a) { DecodeHides(s, a, b); } else { DecodeComposes(s, a, b); }
  }

  /** Without a FEND, an unsynchronised decoder ignores whatever it is given. */
  lemma {:induction false} DecodeIgnores(bs: seq<byte>)
    requires FEND !in bs
    ensures Decode(RESET, bs) == Decoded(RESET, [], [])
    decreases bs
  {
    if bs != [] { DecodeIgnores(bs[1..]); }
  }

  lemma {:induction false} ChunkingHidden(s: Dec, cs: seq<seq<byte>>)
    requires s.Valid()
    requires FEND !in Decode(s, Flatten(cs)).lost
    ensures DecodeChunks(s, cs) == (Decode(s, Flatten(cs)).state, Decode(s, Flatten(cs)).frames)
    decreases cs
  {
    if cs == [] {
    } else {
      var rest := Flatten(cs[1..]);
      var d := Decode(s, cs[0]);
      DecodeConcat(s, cs[0], rest);
      DecodeKeepsValid(s, cs[0]);
      if Overflows(s, cs[0]) {
        assert forall b | b in rest :: b in d.lost + rest;
        DecodeIgnores(rest);
        ChunkingHidden(d.state, cs[1..]);
        assert d.frames + [] == d.frames;
      } else {
        ChunkingHidden(d.state, cs[1..]);
      }
    }
  }

  /** Where the first overflow cuts the stream: everything before the lost part, and what it leaves. */
  lemma {:induction false} LostIsSuffix(s: Dec, bs: seq<byte>)
    ensures var d := Decode(s, bs);
      && |d.lost| <= |bs|
      && var kept := |bs| - |d.lost|;
      && d.lost == bs[kept..]
      && (d.lost != [] ==> Overflows(s, bs[..kept]) && Decode(s, bs[..kept]).state == RESET)
    decreases bs
  {
    if bs != [] && !Feed(s, bs[0]).full {
      var t := Feed(s, bs[0]).state;
      LostIsSuffix(t, bs[1..]);
      var kept := |bs| - |Decode(s, bs).lost|;
      if Decode(s, bs).lost != [] {
        assert bs[..kept][1..] == bs[1..][..kept - 1];
      }
    } else if bs != [] {
      assert bs[..1][1..] == [];
    }
  }

  lemma {:induction false} FirstFend(bs: seq<byte>) returns (k: nat)
    requires FEND in bs
    ensures k < |bs| && bs[k] == FEND && FEND !in bs[..k]
    decreases bs
  {
    if bs[0] == FEND {
      k := 0;
    } else {
      k := FirstFend(bs[1..]);
      k := k + 1;
      assert bs[..k] == [bs[0]] + bs[1..][..k - 1];
    }
  }

  lemma {:induction false} NoOverflowUnsynced(bs: seq<byte>)
    requires FEND !in bs
    ensures !Overflows(RESET, bs)
    decreases bs
  {
    if bs != [] { NoOverflowUnsynced(bs[1..]); }
  }

  /** The first FEND synchronises. */
  lemma {:induction false} FendSyncs(bs: seq<byte>)
    requires FEND !in bs
    ensures Decode(RESET, bs + [FEND]).state == Dec(true, false, [])
  {
    DecodeIgnores(bs);
    NoOverflowUnsynced(bs);
    DecodeConcat(RESET, bs, [FEND]);
    assert [FEND][1..] == [];
  }

  /** If a FEND was dropped, cutting the stream right behind the overflow makes the decoder hear it. */
  lemma {:induction false} ChunkingShows(s: Dec, bs: seq<byte>) returns (cs: seq<seq<byte>>)
    requires s.Valid()
    requires FEND in Decode(s, bs).lost
    ensures Flatten(cs) <= bs
    ensures DecodeChunks(s, cs).0 != Decode(s, Flatten(cs)).state
  {
    hide Decode, Overflows;
    var lost := Decode(s, bs).lost;
    LostIsSuffix(s, bs);
    var kept := |bs| - |lost|;
    var k := FirstFend(lost);
    var a, b := bs[..kept], lost[..k] + [FEND];
    cs := [a, b];
    assert cs[1..] == [b] && [b][1..] == [];
    FlattenOne(b);
    assert Flatten(cs) == a + b == bs[..kept + k + 1];
    DecodeConcat(s, a, b);
    FendSyncs(lost[..k]);
    assert DecodeChunks(RESET, [b]).0 == Decode(RESET, b).state;
  }

  // ---- overflow, as the stream shows it ----

  predicate Synced(s: Dec, bs: seq<byte>) {
    s.sync || FEND in bs
  }

  /** The data bytes since the last FEND of a synchronised stream; FESC is not one of them. */
  function Fill(s: Dec, bs: seq<byte>): nat {
    if bs == [] then |s.pending|
    else
      var n := |bs| - 1;
      if bs[n] == FEND then 0
      else if bs[n] == FESC || !Synced(s, bs[..n]) then Fill(s, bs[..n])
      else Fill(s, bs[..n]) + 1
  }

  lemma {:induction false} OverflowsConcat(s: Dec, a: seq<byte>, b: seq<byte>)
    ensures Overflows(s, a + b) <==> Overflows(s, a) || Overflows(Decode(s, a).state, b)
    decreases a
  {
    if a == [] {
      assert a + b == b;
    } else {
      assert (a + b)[1..] == a[1..] + b;
      if !Feed(s, a[0]).full { OverflowsConcat(Feed(s, a[0]).state, a[1..], b); }
    }
  }

  lemma {:induction false} OverflowsOne(s: Dec, b: byte)
    ensures Overflows(s, [b]) <==> Feed(s, b).full
    ensures !Feed(s, b).full ==> Decode(s, [b]).state == Feed(s, b).state
  {
    assert [b][1..] == [];
  }

  /** Until the buffer overflows, the decoder holds as many bytes as the stream has filled in. */
  lemma {:induction false} FillIsHeld(s: Dec, bs: seq<byte>)
    requires s.Valid() && !Overflows(s, bs)
    ensures Decode(s, bs).state.Valid()
    ensures Decode(s, bs).state.sync == Synced(s, bs) && |Decode(s, bs).state.pending| == Fill(s, bs)
    decreases |bs|
  {
    if bs != [] {
      var n := |bs| - 1;
      var before, b := bs[..n], bs[n];
      assert bs == before + [b];
      OverflowsConcat(s, before, [b]);
      FillIsHeld(s, before);
      DecodeConcat(s, before, [b]);
      OverflowsOne(Decode(s, before).state, b);
      assert Synced(s, bs) <==> Synced(s, before) || b == FEND;
    }
  }

  lemma {:induction false} OverflowsNext(s: Dec, bs: seq<byte>, b: byte)
    requires s.Valid() && !Overflows(s, bs)
    ensures Overflows(s, bs + [b]) <==> Fill(s, bs + [b]) >= 1024
  {
    assert (bs + [b])[..|bs|] == bs;
    OverflowsConcat(s, bs, [b]);
    FillIsHeld(s, bs);
    OverflowsOne(Decode(s, bs).state, b);
  }

  /** At some point the stream has filled in 1024 bytes. */
  predicate FillsUp(s: Dec, bs: seq<byte>) {
    exists k :: 0 <= k <= |bs| && Fill(s, bs[..k]) >= 1024
  }

  lemma {:induction false} FillsUpSnoc(s: Dec, bs: seq<byte>, b: byte)
    ensures FillsUp(s, bs + [b]) <==> FillsUp(s, bs) || Fill(s, bs + [b]) >= 1024
  {
    hide Fill;
    var all := bs + [b];
    assert all[..|all|] == all;
    assert forall k :: 0 <= k <= |bs| ==> all[..k] == bs[..k];
    if k :| 0 <= k <= |bs| && Fill(s, bs[..k]) >= 1024 { assert Fill(s, all[..k]) >= 1024; }
  }

  /** The buffer overflows exactly when the stream fills in 1024 bytes at some point. */
  lemma {:induction false} OverflowIsFill(s: Dec, bs: seq<byte>)
    requires s.Valid()
    ensures Overflows(s, bs) <==> FillsUp(s, bs)
    decreases |bs|
  {
    if bs == [] {
      assert bs[..0] == [];
    } else {
      hide Overflows, FillsUp, Fill;
      var before, b := bs[..|bs| - 1], bs[|bs| - 1];
      assert bs == before + [b];
      OverflowsConcat(s, before, [b]);
      OverflowIsFill(s, before);
      FillsUpSnoc(s, before, b);
      if !Overflows(s, before) { OverflowsNext(s, before, b); }
    }
  }

  /** A FEND comes behind a point at which the stream has filled in 1024 bytes. */
  predicate FendBehindOverflow(s: Dec, bs: seq<byte>) {
    exists k :: 0 <= k <= |bs| && Fill(s, bs[..k]) >= 1024 && FEND in bs[k..]
  }

  lemma {:induction false} LostFend(s: Dec, bs: seq<byte>)
    requires s.Valid()
    ensures FEND in Decode(s, bs).lost <==> FendBehindOverflow(s, bs)
  {
    hide Overflows, Fill, Decode;
    if FEND in Decode(s, bs).lost {
      LostIsSuffix(s, bs);
      var kept := |bs| - |Decode(s, bs).lost|;
      OverflowIsFill(s, bs[..kept]);
      var k :| 0 <= k <= kept && Fill(s, bs[..kept][..k]) >= 1024;
      assert bs[..kept][..k] == bs[..k] && bs[k..] == bs[k..kept] + bs[kept..];
    }
    if k :| 0 <= k <= |bs| && Fill(s, bs[..k]) >= 1024 && FEND in bs[k..] {
      assert bs[..k][..k] == bs[..k];
      OverflowIsFill(s, bs[..k]);
      assert bs == bs[..k] + bs[k..];
      DecodeConcat(s, bs[..k], bs[k..]);
    }
  }

  /**
   * How TCP cuts the byte stream is invisible at every point of the stream exactly when no FEND comes
   * behind a point at which a synchronised stream has had 1024 data bytes since its last FEND.
   */
  lemma {:induction false} ChunkingInvariant(s: Dec, bs: seq<byte>)
    requires s.Valid()
    ensures (forall cs: seq<seq<byte>> | Flatten(cs) <= bs ::
               DecodeChunks(s, cs) == (Decode(s, Flatten(cs)).state, Decode(s, Flatten(cs)).frames))
            <==> !FendBehindOverflow(s, bs)
  {
    LostFend(s, bs);
    if FEND in Decode(s, bs).lost {
      var cs := ChunkingShows(s, bs);
    } else {
      forall cs: seq<seq<byte>> | Flatten(cs) <= bs
        ensures DecodeChunks(s, cs) == (Decode(s, Flatten(cs)).state, Decode(s, Flatten(cs)).frames)
      {
        var a := Flatten(cs);
        var b := bs[|a|..];
        assert a + b == bs;
        DecodeConcat(s, a, b);
        assert forall x | x in Decode(s, a).lost :: x in Decode(s, a).lost + b;
        ChunkingHidden(s, cs);
      }
    }
  }

  lemma {:induction false} FillCounts(s: Dec, x: seq<byte>)
    requires FEND !in x && FESC !in x
    ensures Fill(s, [FEND] + x) == |x|
    decreases |x|
  {
    var n := |x|;
    if n == 0 {
      assert ([FEND] + x)[..0] == [];
    } else {
      assert ([FEND] + x)[..n] == [FEND] + x[..n - 1];
      FillCounts(s, x[..n - 1]);
    }
  }

  /** From any decoder state, a FEND, 1024 or more data bytes without an escape, and a FEND: there is a
      way to cut this stream that the decoder notices. */
  lemma {:induction false} LongFrameShows(s: Dec, x: seq<byte>) returns (cs: seq<seq<byte>>)
    requires s.Valid() && |x| >= 1024 && FEND !in x && FESC !in x
    ensures Flatten(cs) <= [FEND] + x + [FEND]
    ensures DecodeChunks(s, cs).0 != Decode(s, Flatten(cs)).state
  {
    var bs := [FEND] + x + [FEND];
    var k := |x| + 1;
    FillCounts(s, x);
    assert bs[..k] == [FEND] + x && bs[k..] == [FEND];
    LostFend(s, bs);
    cs := ChunkingShows(s, bs);
  }

  // ---- round trip ----

  /** A frame as a decoder with a leftover escape hears it: only its first byte can be altered. */
  function Heard(escape: bool, p: seq<byte>): seq<byte> {
    if escape && p != [] then [Unescape(p[0])] + p[1..] else p
  }

  lemma {:induction false} EscapeOne(x: byte)
    ensures Escape([x]) == EscapeByte(x)
  {
    assert [x][1..] == [];
    assert Escape([x]) == EscapeByte(x) + [];
  }

  lemma {:induction false} DecodeCons(s: Dec, b: byte, rest: seq<byte>)
    requires !Feed(s, b).full
    ensures Decode(s, [b] + rest) == After(Feed(s, b).frames, Decode(Feed(s, b).state, rest))
    ensures Feed(s, b).frames == [] ==> Decode(s, [b] + rest) == Decode(Feed(s, b).state, rest)
  {
    assert ([b] + rest)[1..] == rest;
  }

  lemma {:induction false} DecodeEscapePair(s: Dec, y: byte, rest: seq<byte>)
    requires s.sync && |s.pending| + 1 < MTU && y in {TFEND, TFESC}
    ensures Decode(s, [FESC, y] + rest) == Decode(Dec(true, false, s.pending + [Unescape(y)]), rest)
  {
    assert [FESC, y] + rest == [FESC] + ([y] + rest);
    DecodeCons(s, FESC, [y] + rest);
    DecodeCons(s.(escape := true), y, rest);
  }

  /** One payload byte as encoded is one payload byte heard. */
  lemma {:induction false} DecodeUnit(s: Dec, x: byte, rest: seq<byte>)
    requires s.sync && |s.pending| + 1 < MTU
    ensures Decode(s, Escape([x]) + rest) ==
            Decode(Dec(true, false, s.pending + Heard(s.escape, [x])), rest)
  {
    EscapeOne(x);
    assert Heard(s.escape, [x]) == [if s.escape then Unescape(x) else x];
    if x == FEND {
      DecodeEscapePair(s, TFEND, rest);
    } else if x == FESC {
      DecodeEscapePair(s, TFESC, rest);
    } else {
      DecodeCons(s, x, rest);
    }
  }

  lemma {:induction false} EscapeCons(p: seq<byte>)
    requires p != []
    ensures Escape(p) == Escape([p[0]]) + Escape(p[1..])
  {
    EscapeOne(p[0]);
  }

  lemma {:induction false} DecodeBody(s: Dec, p: seq<byte>, rest: seq<byte>)
    requires s.sync && |s.pending| + |p| < MTU && p != []
    ensures Decode(s, Escape(p) + rest) == Decode(Dec(true, false, s.pending + Heard(s.escape, p)), rest)
    decreases p
  {
    var x, q := p[0], p[1..];
    var t := Dec(true, false, s.pending + Heard(s.escape, [x]));
    EscapeCons(p);
    assert Escape(p) + rest == Escape([x]) + (Escape(q) + rest);
    DecodeUnit(s, x, Escape(q) + rest);
    assert t.pending + q == s.pending + Heard(s.escape, p);
    if q == [] {
      assert Escape(q) + rest == rest;
      assert t.pending + q == t.pending;
    } else {
      DecodeBody(t, q, rest);
    }
  }

  lemma {:induction false} EncodeSplit(p: seq<byte>, rest: seq<byte>)
    ensures Encode(p) + rest == [FEND] + (Escape(p) + ([FEND] + rest))
  {
  }

  lemma {:induction false} AfterAfter(a: seq<seq<byte>>, b: seq<seq<byte>>, d: Decoded)
    ensures After(a, After(b, d)) == After(a + b, d)
  {
    assert a + (b + d.frames) == (a + b) + d.frames;
  }

  lemma {:induction false} DecodeFrameBody(escape: bool, p: seq<byte>, rest: seq<byte>)
    requires 1 <= |p| < MTU
    ensures Decode(Dec(true, escape, []), Escape(p) + ([FEND] + rest)) ==
            After([Heard(escape, p)], Decode(Dec(true, false, []), rest))
  {
    var h := Heard(escape, p);
    DecodeBody(Dec(true, escape, []), p, [FEND] + rest);
    assert [] + h == h;
    DecodeCons(Dec(true, false, h), FEND, rest);
  }

  lemma {:induction false} DecodeFrame(s: Dec, p: seq<byte>, rest: seq<byte>)
    requires s.Valid() && 1 <= |p| < MTU
    ensures Decode(s, Encode(p) + rest) ==
            After(Waiting(s) + [Heard(s.escape, p)], Decode(Dec(true, false, []), rest))
  {
    EncodeSplit(p, rest);
    DecodeCons(s, FEND, Escape(p) + ([FEND] + rest));
    DecodeFrameBody(s.escape, p, rest);
    AfterAfter(Waiting(s), [Heard(s.escape, p)], Decode(Dec(true, false, []), rest));
  }

  predicate Frames(ps: seq<seq<byte>>) {
    forall p | p in ps :: 1 <= |p| < 1024
  }

  lemma {:induction false} DecodeAll(s: Dec, ps: seq<seq<byte>>)
    requires s.Valid() && Frames(ps) && ps != []
    ensures Decode(s, EncodeAll(ps)) ==
            Decoded(Dec(true, false, []), Waiting(s) + [Heard(s.escape, ps[0])] + ps[1..], [])
    decreases ps
  {
    var first := Waiting(s) + [Heard(s.escape, ps[0])];
    var synced := Dec(true, false, []);
    var qs := ps[1..];
    DecodeFrame(s, ps[0], EncodeAll(qs));
    if qs == [] {
      assert first + [] + qs == first;
    } else {
      DecodeAll(synced, qs);
      assert [] + [qs[0]] + qs[1..] == qs;
      assert first + qs == Waiting(s) + [Heard(s.escape, ps[0])] + ps[1..];
    }
  }

  lemma {:induction false} HeardUnaltered(escape: bool, p: seq<byte>)
    requires p != []
    ensures Heard(escape, p) == p <==> !escape || p[0] !in {TFEND, TFESC}
  {
    if escape {
      assert Heard(escape, p)[0] == Unescape(p[0]);
      if p[0] !in {TFEND, TFESC} { assert Heard(escape, p) == p; }
    }
  }

  lemma {:induction false} FrontDecides(w: seq<seq<byte>>, h: seq<byte>, ps: seq<seq<byte>>)
    requires ps != []
    ensures w + [h] + ps[1..] == w + ps <==> h == ps[0]
  {
    assert (w + [h] + ps[1..])[|w|] == h;
    assert (w + ps)[|w|] == ps[0];
    if h == ps[0] { assert w + [h] + ps[1..] == w + ps; }
  }

  /**
   * Resynchronisation: from any decoder state, and however the stream is cut, the encoded frames come
   * out behind the waiting partial frame, unaltered exactly when no escape is left over or the first
   * frame does not start with TFEND or TFESC.
   */
  lemma {:induction false} RoundTrip(s: Dec, ps: seq<seq<byte>>, cs: seq<seq<byte>>)
    requires s.Valid() && Frames(ps) && ps != []
    requires Flatten(cs) == EncodeAll(ps)
    ensures DecodeChunks(s, cs).0 == Dec(true, false, [])
    ensures DecodeChunks(s, cs).1 == Waiting(s) + ps
            <==> !s.escape || ps[0][0] !in {TFEND, TFESC}
  {
    DecodeAll(s, ps);
    ChunkingHidden(s, cs);
    HeardUnaltered(s.escape, ps[0]);
    FrontDecides(Waiting(s), Heard(s.escape, ps[0]), ps);
  }

  /** The concatenation of encodings determines the frames, so one encoding determines its frame. */
  lemma {:induction false} EncodeAllInjective(ps: seq<seq<byte>>, qs: seq<seq<byte>>)
    requires Frames(ps) && Frames(qs)
    requires EncodeAll(ps) == EncodeAll(qs)
    ensures ps == qs
  {
    if ps != [] && qs != [] {
      DecodeAll(RESET, ps);
      DecodeAll(RESET, qs);
      assert ps == [] + [ps[0]] + ps[1..];
      assert qs == [] + [qs[0]] + qs[1..];
    }
  }

  lemma {:induction false} EncodeAllAppend(ps: seq<seq<byte>>, qs: seq<seq<byte>>)
    ensures EncodeAll(ps + qs) == EncodeAll(ps) + EncodeAll(qs)
    decreases ps
  {
    if ps == [] {
      assert ps + qs == qs;
    } else {
      assert (ps + qs)[1..] == ps[1..] + qs;
      EncodeAllAppend(ps[1..], qs);
    }
  }
}
