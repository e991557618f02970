/** What rnode_from_air delivers, on every frame sequence and from every receiver state. */
module ReassemblyLaws {
  import opened Bytes
  import opened Frames

  // ---- bounds ----

  lemma {:induction false} ReceiveKeepsValid(rx: Rx, f: seq<byte>)
    requires rx.Valid() && IsFrame(f)
    ensures Receive(rx, f).0.Valid()
    ensures forall p | p in Receive(rx, f).1 :: |p| <= PAYLOAD_MAX
  {
  }

  lemma {:induction false} ReceiveAllKeepsValid(rx: Rx, fs: seq<seq<byte>>)
    requires rx.Valid() && AreFrames(fs)
    ensures ReceiveAll(rx, fs).0.Valid()
    ensures forall p | p in ReceiveAll(rx, fs).1 :: |p| <= PAYLOAD_MAX
    decreases fs
  {
    if fs != [] {
      ReceiveKeepsValid(rx, fs[0]);
      ReceiveAllKeepsValid(Receive(rx, fs[0]).0, fs[1..]);
    }
  }

  lemma {:induction false} ReceiveAppend(rx: Rx, a: seq<seq<byte>>, b: seq<seq<byte>>)
    requires AreFrames(a) && AreFrames(b)
    ensures AreFrames(a + b)
    ensures ReceiveAll(rx, a + b).0 == ReceiveAll(ReceiveAll(rx, a).0, b).0
    ensures ReceiveAll(rx, a + b).1 == ReceiveAll(rx, a).1 + ReceiveAll(ReceiveAll(rx, a).0, b).1
    decreases a
  {
    if a == [] {
      assert a + b == b;
    } else {
      assert (a + b)[1..] == a[1..] + b;
      assert IsFrame(a[0]);
      ReceiveAppend(Receive(rx, a[0]).0, a[1..], b);
    }
  }

  // ---- the declarative specification ----

  /** How many consecutive split frames of frame j's high nibble end at j; bit 0 is the split flag. */
  function RunLength(fs: seq<seq<byte>>, j: nat): nat
    requires AreFrames(fs) && j < |fs|
  {
    assert IsFrame(fs[j]);
    if fs[j][0] & 0x01 == 0 then 0
    else if j == 0 || RunLength(fs, j - 1) == 0 then 1
    else if (assert IsFrame(fs[j - 1]); fs[j - 1][0] >> 4 != fs[j][0] >> 4) then 1
    else RunLength(fs, j - 1) + 1
  }

  /** What frame j makes the receiver deliver, in terms of the frame sequence alone. */
  function DeliveredAt(fs: seq<seq<byte>>, j: nat): seq<seq<byte>>
    requires AreFrames(fs) && j < |fs|
  {
    assert IsFrame(fs[j]);
    if fs[j][0] & 0x01 == 0 then [fs[j][1..]]
    else if RunLength(fs, j) % 2 == 1 then []
    else assert IsFrame(fs[j - 1]); [fs[j - 1][1..] + fs[j][1..]]
  }

  function Deliveries(fs: seq<seq<byte>>, n: nat): seq<seq<byte>>
    requires AreFrames(fs) && n <= |fs|
  {
    if n == 0 then [] else Deliveries(fs, n - 1) + DeliveredAt(fs, n - 1)
  }

  /** The part still waiting after n frames. */
  function WaitingAfter(fs: seq<seq<byte>>, n: nat): Rx
    requires AreFrames(fs) && n <= |fs|
  {
    if n == 0 || RunLength(fs, n - 1) % 2 == 0 then Unset
    else assert IsFrame(fs[n - 1]); Partial(fs[n - 1][0] >> 4, fs[n - 1][1..])
  }

  lemma {:induction false} SpecStep(fs: seq<seq<byte>>, n: nat)
    requires AreFrames(fs) && n < |fs|
    ensures IsFrame(fs[n])
    ensures Receive(WaitingAfter(fs, n), fs[n]) == (WaitingAfter(fs, n + 1), DeliveredAt(fs, n))
  {
    assert IsFrame(fs[n]);
  }

  lemma {:induction false} ReceiveOne(rx: Rx, f: seq<byte>)
    requires IsFrame(f)
    ensures ReceiveAll(rx, [f]) == Receive(rx, f)
  {
    assert [f][1..] == [];
    assert Receive(rx, f).1 + [] == Receive(rx, f).1;
  }

  lemma {:induction false} PrefixIsFrames(fs: seq<seq<byte>>, n: nat)
    requires AreFrames(fs) && n <= |fs|
    ensures AreFrames(fs[..n])
    ensures n < |fs| ==> IsFrame(fs[n]) && AreFrames([fs[n]]) && fs[..n + 1] == fs[..n] + [fs[n]]
  {
  }

  lemma {:induction false} ReceiveMeetsSpec(fs: seq<seq<byte>>, n: nat)
    requires AreFrames(fs) && n <= |fs|
    ensures AreFrames(fs[..n])
    ensures ReceiveAll(Unset, fs[..n]) == (WaitingAfter(fs, n), Deliveries(fs, n))
  {
    PrefixIsFrames(fs, n);
    if n > 0 {
      hide Receive, ReceiveAll, RunLength, DeliveredAt, WaitingAfter, AreFrames, IsFrame;
      PrefixIsFrames(fs, n - 1);
      SpecStep(fs, n - 1);
      ReceiveMeetsSpec(fs, n - 1);
      ReceiveAppend(Unset, fs[..n - 1], [fs[n - 1]]);
      ReceiveOne(WaitingAfter(fs, n - 1), fs[n - 1]);
    }
  }

  /** A receiver state is the state some frame history leaves: nothing, or one first fragment. */
  function History(rx: Rx): seq<seq<byte>> {
    if rx == Unset then [] else [[(rx.nibble << 4) | FLAG_SPLIT] + rx.data]
  }

  lemma {:induction false} HeaderFields(nibble: byte)
    requires nibble <= 15
    ensures ((nibble << 4) | FLAG_SPLIT) & FLAG_SPLIT != 0
    ensures ((nibble << 4) | FLAG_SPLIT) >> 4 == nibble
  {
  }

  /**
   * From any valid receiver state, on any frame sequence whatsoever, rnode_from_air delivers what the
   * declarative specification reads off the sequence: every unsplit frame, and the concatenation of
   * frames j - 1 and j whenever an even number of split frames of one nibble ends at j.
   */
  lemma {:induction false} ReassemblyMeetsSpec(rx: Rx, fs: seq<seq<byte>>)
    requires rx.Valid() && AreFrames(fs)
    ensures var all := History(rx) + fs;
      && AreFrames(all)
      && ReceiveAll(rx, fs) == (WaitingAfter(all, |all|), Deliveries(all, |all|))
  {
    var before := History(rx);
    var all := before + fs;
    if rx.Partial? {
      HeaderFields(rx.nibble);
      assert IsFrame(before[0]) && Data(before[0]) == rx.data;
      ReceiveOne(Unset, before[0]);
    }
    assert AreFrames(before);
    assert ReceiveAll(Unset, before) == (rx, []);
    ReceiveAppend(Unset, before, fs);
    assert all[..|all|] == all;
    ReceiveMeetsSpec(all, |all|);
    assert [] + ReceiveAll(rx, fs).1 == ReceiveAll(rx, fs).1;
  }

  // ---- fragment and reassemble ----

  lemma {:induction false} TagFields(tag: byte)
    requires IsTag(tag)
    ensures tag & FLAG_SPLIT == 0 && (tag | FLAG_SPLIT) & FLAG_SPLIT != 0
    ensures (tag | FLAG_SPLIT) >> 4 == tag >> 4 <= 15
  {
  }

  lemma {:induction false} FragmentsAreFrames(p: Packet, tag: byte)
    ensures AreFrames(Fragments(p, tag))
    ensures 1 <= |Fragments(p, tag)| <= 2
  {
  }

  /** The receiver state that turns a split packet into a wrong concatenation. */
  predicate Clash(rx: Rx, p: Packet, tag: byte) {
    |p| > DATA_MTU && rx.Partial? && rx.nibble == tag >> 4
  }

  lemma {:induction false} FragmentsReceived(rx: Rx, p: Packet, tag: byte)
    requires IsTag(tag)
    ensures AreFrames(Fragments(p, tag))
    ensures ReceiveAll(rx, Fragments(p, tag)) ==
            if Clash(rx, p, tag) then (Partial(tag >> 4, p[DATA_MTU..]), [rx.data + p[..DATA_MTU]])
            else (Unset, [p])
  {
    var fs := Fragments(p, tag);
    FragmentsAreFrames(p, tag);
    TagFields(tag);
    if |p| <= DATA_MTU {
      assert Data(fs[0]) == p;
      ReceiveOne(rx, fs[0]);
    } else {
      var first, second := fs[0], fs[1];
      assert Data(first) == p[..DATA_MTU] && Data(second) == p[DATA_MTU..];
      assert fs == [first] + [second];
      ReceiveAppend(rx, [first], [second]);
      ReceiveOne(rx, first);
      ReceiveOne(Receive(rx, first).0, second);
      assert p[..DATA_MTU] + p[DATA_MTU..] == p;
      if Clash(rx, p, tag) {
        assert ReceiveAll(rx, fs).1 == [rx.data + p[..DATA_MTU]];
      } else {
        assert ReceiveAll(rx, fs).1 == [p];
      }
    }
  }

  /**
   * Round trip from every receiver state: the payload is delivered once and nothing is left over
   * exactly when the packet is unsplit or the waiting part, if any, has another nibble.
   */
  lemma {:induction false} RoundTrip(rx: Rx, p: Packet, tag: byte)
    requires IsTag(tag)
    ensures AreFrames(Fragments(p, tag))
    ensures ReceiveAll(rx, Fragments(p, tag)) == (Unset, [p]) <==> !Clash(rx, p, tag)
    ensures Clash(rx, p, tag) ==>
      ReceiveAll(rx, Fragments(p, tag)) == (Partial(tag >> 4, p[DATA_MTU..]), [rx.data + p[..DATA_MTU]])
  {
    FragmentsReceived(rx, p, tag);
  }
}
