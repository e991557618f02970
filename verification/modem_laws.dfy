/**
 * What the modem keeps at every step, restarts included: the air log consists of the packets given to
 * rnode_to_air, in order, each one's tail directly behind its head.
 */
module ModemLaws {
  import opened Bytes
  import opened Frames
  import opened Modem

  /** Every packet has at least its first fragment on air, under a tag with an empty low nibble. */
  predicate Plausible(sent: seq<Sent>) {
    forall i :: 0 <= i < |sent| ==> 1 <= sent[i].aired <= |sent[i].Parts()| && IsTag(sent[i].tag)
  }

  /** The frames that the packets' histories account for. */
  function Aired(sent: seq<Sent>): seq<seq<byte>>
    requires Plausible(sent)
  {
    if sent == [] then []
    else
      var n := |sent| - 1;
      Aired(sent[..n]) + sent[n].Parts()[..sent[n].aired]
  }

  /** The fragment that TX_DONE will send next. */
  function Owed(m: State): seq<seq<byte>> {
    if m.tail == [] then [] else [[m.tag | FLAG_SPLIT] + m.tail]
  }

  function Incomplete(sent: seq<Sent>): nat {
    if sent == [] then 0
    else
      var n := |sent| - 1;
      Incomplete(sent[..n]) + if sent[n].Complete() then 0 else 1
  }

  predicate Transmitting(m: State) {
    m.radio == Tx && m.tail != []
  }

  ghost predicate Inv(m: State) {
    && Plausible(m.sent)
    && m.air == Aired(m.sent)
    && |m.tail| <= DATA_MTU
    && (m.sent == [] ==> m.tail == [])
    // a tail that can still be sent is the missing fragment of the last packet
    && (Transmitting(m) ==> var last := m.sent[|m.sent| - 1]; last.aired == 1 && last.Parts()[1..] == Owed(m))
    // a restart costs at most one packet its tail
    && Incomplete(m.sent) <= m.aborted + (if Transmitting(m) then 1 else 0)
    // without restarts no tail is ever left behind
    && (m.aborted == 0 ==> (m.tail != [] ==> m.radio == Tx))
  }

  lemma {:induction false} SnocParts(sent: seq<Sent>, x: Sent)
    requires Plausible(sent) && 1 <= x.aired <= |x.Parts()| && IsTag(x.tag)
    ensures Plausible(sent + [x])
    ensures Aired(sent + [x]) == Aired(sent) + x.Parts()[..x.aired]
    ensures Incomplete(sent + [x]) == Incomplete(sent) + if x.Complete() then 0 else 1
  {
    assert (sent + [x])[..|sent|] == sent;
  }

  lemma {:induction false} MaskIsTag(random: byte)
    ensures IsTag(random & 0xF0)
  {
  }

  lemma {:induction false} ToAirInv(m: State, p: Packet, random: byte)
    requires Inv(m) && m.radio != Tx
    ensures Inv(ToAir(m, p, random))
  {
    var tag := random & 0xF0;
    var x := Sent(p, tag, 1);
    var m' := ToAir(m, p, random);
    MaskIsTag(random);
    SnocParts(m.sent, x);
    assert x.Parts()[..1] == [x.Parts()[0]];
    if |p| > DATA_MTU {
      assert m'.tail == p[DATA_MTU..];
      assert x.Parts()[1..] == Owed(m');
    }
  }

  lemma {:induction false} TxDoneInv(m: State)
    requires Inv(m) && m.radio == Tx
    ensures Inv(TxDone(m))
  {
    if m.tail != [] {
      var n := |m.sent| - 1;
      var before, last := m.sent[..n], m.sent[n];
      var done := last.(aired := 2);
      assert last.Parts()[1] == Owed(m)[0];
      assert last.Parts()[..2] == last.Parts()[..1] + Owed(m);
      assert m.sent == before + [last];
      assert TxDone(m).sent == before + [done];
      SnocParts(before, last);
      SnocParts(before, done);
      assert Aired(before) + last.Parts()[..2] == m.air + Owed(m);
    }
  }

  lemma {:induction false} StartInv(m: State, ok: bool)
    requires Inv(m)
    ensures Inv(Start(m, ok))
  {
  }

  // ---- consequences ----

  /** The whole fragment lists of the packets, in order. */
  function AllParts(sent: seq<Sent>): seq<seq<byte>> {
    if sent == [] then [] else AllParts(sent[..|sent| - 1]) + sent[|sent| - 1].Parts()
  }

  lemma {:induction false} CompletePrefix(sent: seq<Sent>)
    requires Plausible(sent) && Incomplete(sent) == 0
    ensures Aired(sent) == AllParts(sent)
  {
    if sent != [] {
      var last := sent[|sent| - 1];
      CompletePrefix(sent[..|sent| - 1]);
      assert last.Parts()[..last.aired] == last.Parts();
    }
  }

  /** Unless a restart hit a transmission, only the tail in buf_tx separates the air log from the
      complete fragment lists of all packets. */
  lemma {:induction false} NothingLost(m: State)
    requires Inv(m) && m.aborted == 0
    ensures m.air + Owed(m) == AllParts(m.sent)
  {
    if m.tail == [] {
      CompletePrefix(m.sent);
      assert m.air + [] == m.air;
    } else {
      var n := |m.sent| - 1;
      var before, last := m.sent[..n], m.sent[n];
      assert !last.Complete();
      CompletePrefix(before);
      assert last.Parts()[..1] + Owed(m) == last.Parts();
      assert AllParts(m.sent) == Aired(before) + (last.Parts()[..1] + Owed(m));
    }
  }

  /** Where packet i starts in the air log. */
  function StartOf(sent: seq<Sent>, i: nat): nat
    requires Plausible(sent) && i < |sent|
  {
    |Aired(sent[..i])|
  }

  /** Every frame of an air log is fragment `part` of some packet i, at part frames behind its start. */
  lemma {:induction false} Origin(sent: seq<Sent>, k: nat) returns (i: nat, part: nat)
    requires Plausible(sent) && k < |Aired(sent)|
    ensures i < |sent| && part < sent[i].aired
    ensures k == StartOf(sent, i) + part && Aired(sent)[k] == sent[i].Parts()[part]
    ensures part > 0 ==> Aired(sent)[k - 1] == sent[i].Parts()[part - 1]
  {
    var n := |sent| - 1;
    var before := sent[..n];
    if k < |Aired(before)| {
      i, part := Origin(before, k);
      assert before[..i] == sent[..i];
    } else {
      i, part := n, k - |Aired(before)|;
    }
  }

  /** Every frame on air fits the radio's 255 bytes. */
  lemma {:induction false} AiredAreFrames(sent: seq<Sent>)
    requires Plausible(sent)
    ensures AreFrames(Aired(sent))
  {
    if sent != [] { AiredAreFrames(sent[..|sent| - 1]); }
  }
}
