/**
 * From bytes to effects: an emitted packet, put through the receiver's checksum test, chunk parser
 * and body parser, does to the other end exactly what the link's steps say (src/sctp/association.ts:162-209).
 */
module Wire {
  import opened Bytes
  import opened Serial
  import opened Chunks
  import opened Association
  import opened Setup
  import opened SctpAssociation
  import Crc
  import Delivery
  import EndToEnd

  lemma OneChunk(cmp: Comparison, answers: Answers, hmac: Hmac, newSecret: Buffer, w: World, c: Chunk, w': World,
      threw: bool)
    requires Digests(hmac) && Fits(c) && ChunksHandled(cmp, answers, hmac, newSecret, w, [c], w', threw)
    ensures ChunkHandled(cmp, answers, hmac, newSecret, w, c, w', threw)
  {
    hide ChunkHandled;
    assert [c][..0] == [];
    assert [c][0] == c;
    assert forall w1, t :: ChunksHandled(cmp, answers, hmac, newSecret, w, [c][..0], w1, t) ==> !t && w1 == w;
  }

  /** Handling `a` and then `b`, in the state the first led to, unless that threw. */
  ghost predicate HandledInTurn(cmp: Comparison, answers: Answers, hmac: Hmac, newSecret: Buffer, w: World,
      a: seq<Chunk>, b: seq<Chunk>, w': World, threw: bool)
    requires Digests(hmac) && (forall c | c in a :: Fits(c)) && forall c | c in b :: Fits(c)
  {
    || (threw && ChunksHandled(cmp, answers, hmac, newSecret, w, a, w', true))
    || exists w1 :: ChunksHandled(cmp, answers, hmac, newSecret, w, a, w1, false)
                    && ChunksHandled(cmp, answers, hmac, newSecret, w1, b, w', threw)
  }

  /** The chunks of a packet in two parts, wherever it is cut. */
  lemma {:induction false} ChunksAppend(cmp: Comparison, answers: Answers, hmac: Hmac, newSecret: Buffer, w: World,
      a: seq<Chunk>, b: seq<Chunk>, w': World, threw: bool)
    requires Digests(hmac) && (forall c | c in a :: Fits(c)) && forall c | c in b :: Fits(c)
    ensures ChunksHandled(cmp, answers, hmac, newSecret, w, a + b, w', threw) <==>
      HandledInTurn(cmp, answers, hmac, newSecret, w, a, b, w', threw)
    decreases |b|, 1
  {
    hide ChunkHandled;
    if b == [] {
      assert a + b == a;
    } else {
      var n := |b| - 1;
      assert (a + b)[..|a + b| - 1] == a + b[..n] && (a + b)[|a + b| - 1] == b[n];
      if ChunksHandled(cmp, answers, hmac, newSecret, w, a + b, w', threw) {
        if threw && ChunksHandled(cmp, answers, hmac, newSecret, w, a + b[..n], w', true) {
          ChunksAppend(cmp, answers, hmac, newSecret, w, a, b[..n], w', true);
        } else {
          var w2 :| ChunksHandled(cmp, answers, hmac, newSecret, w, a + b[..n], w2, false)
            && ChunkHandled(cmp, answers, hmac, newSecret, w2, b[n], w', threw);
          ChunksAppend(cmp, answers, hmac, newSecret, w, a, b[..n], w2, false);
        }
      }
      if HandledInTurn(cmp, answers, hmac, newSecret, w, a, b, w', threw) {
        TurnsAppend(cmp, answers, hmac, newSecret, w, a, b, w', threw);
      }
    }
  }

  lemma {:induction false} TurnsAppend(cmp: Comparison, answers: Answers, hmac: Hmac, newSecret: Buffer, w: World,
      a: seq<Chunk>, b: seq<Chunk>, w': World, threw: bool)
    requires Digests(hmac) && (forall c | c in a :: Fits(c)) && (forall c | c in b :: Fits(c)) && b != []
    requires HandledInTurn(cmp, answers, hmac, newSecret, w, a, b, w', threw)
    ensures ChunksHandled(cmp, answers, hmac, newSecret, w, a + b, w', threw)
    decreases |b|, 0
  {
    hide ChunkHandled;
    var n := |b| - 1;
    assert (a + b)[..|a + b| - 1] == a + b[..n] && (a + b)[|a + b| - 1] == b[n];
    if threw && ChunksHandled(cmp, answers, hmac, newSecret, w, a, w', true) {
      ChunksAppend(cmp, answers, hmac, newSecret, w, a, b[..n], w', true);
    } else {
      var w1 :| ChunksHandled(cmp, answers, hmac, newSecret, w, a, w1, false)
        && ChunksHandled(cmp, answers, hmac, newSecret, w1, b, w', threw);
      if threw && ChunksHandled(cmp, answers, hmac, newSecret, w1, b[..n], w', true) {
        ChunksAppend(cmp, answers, hmac, newSecret, w, a, b[..n], w', true);
      } else {
        var w2 :| ChunksHandled(cmp, answers, hmac, newSecret, w1, b[..n], w2, false)
          && ChunkHandled(cmp, answers, hmac, newSecret, w2, b[n], w', threw);
        ChunksAppend(cmp, answers, hmac, newSecret, w, a, b[..n], w2, false);
      }
    }
  }

  /** A DATA packet delivers the chunk that was sent, and its SACK answers for the state it led to. */
  lemma DataPacketDelivers(cmp: Comparison, answers: Answers, hmac: Hmac, newSecret: Buffer, w: World, tag: u32,
      d: Data, w': World, threw: bool)
    requires Digests(hmac) && Sendable(d)
    requires forall c | c in ChunksFrom(DataPacket(tag, d), 12) :: Fits(c)
    requires ChunksHandled(cmp, answers, hmac, newSecret, w, ChunksFrom(DataPacket(tag, d), 12), w', threw)
    ensures Crc.Accepts(DataPacket(tag, d))
    ensures var o := DeliverHeard(cmp, w.rx, d, SctpAssociation.Hearing(answers, w.peer.state == ESTABLISHED));
      if o.threw then threw && w' == WithRx(w, o.rx)
      else exists sorted :: IsSorting(cmp, o.rx.outOfOrder.Keys, sorted) && SackedFor(w, o.rx, sorted, w', threw)
  {
    hide Packet, ChunksFrom, ChunksHandled, ParseData, DataHandled, DeliverHeard, SackedFor;
    DataFits(d);
    PacketRoundTrip(tag, [DataChunk(d)]);
    OneChunk(cmp, answers, hmac, newSecret, w, DataChunk(d), w', threw);
    DataRoundTrip(d);
    var o := DeliverHeard(cmp, w.rx, d, SctpAssociation.Hearing(answers, w.peer.state == ESTABLISHED));
    var a := DataAnswers(cmp, w, o.rx, o.threw, w', threw);
  }

  /** A SACK packet does to the queue what the SACK that was built says. */
  lemma SackPacketAcknowledges(cmp: Comparison, answers: Answers, hmac: Hmac, newSecret: Buffer, w: World, tag: u32,
      s: Sack, w': World, threw: bool)
    requires Digests(hmac) && SackFits(s) && Fits(SackChunk(s))
    requires forall c | c in ChunksFrom(Packet(tag, [SackChunk(s)]), 12) :: Fits(c)
    requires ChunksHandled(cmp, answers, hmac, newSecret, w, ChunksFrom(Packet(tag, [SackChunk(s)]), 12), w', threw)
    ensures Crc.Accepts(Packet(tag, [SackChunk(s)]))
    ensures !threw && w' == w.(sentQueue := HandleSack(cmp, w.sentQueue, s))
  {
    hide Packet, ChunksFrom, ChunksHandled, SackOf, SackBytes, Association.HandleSack;
    PacketRoundTrip(tag, [SackChunk(s)]);
    OneChunk(cmp, answers, hmac, newSecret, w, SackChunk(s), w', threw);
    SackRoundTrip(s);
  }

  /** A packet of one chunk reads as that chunk under that tag. */
  predicate Carries(p: Buffer, tag: u32, c: Chunk) {
    |p| >= 12 && Crc.Accepts(p) && ReadU32(p, 4) == tag && ChunksFrom(p, 12) == [c]
  }

  lemma OnePacket(tag: u32, c: Chunk)
    requires Fits(c)
    ensures Carries(Packet(tag, [c]), tag, c)
  {
    hide Packet, ChunksFrom, Crc.Accepts;
    PacketRoundTrip(tag, [c]);
  }

  /** The pieces of a message go out in order, one packet each, under the given tag. */
  lemma {:induction false} DataPacketsCarry(tag: u32, ds: seq<Data>)
    requires forall d | d in ds :: Sendable(d)
    ensures var ps := DataPackets(tag, ds);
      |ps| == |ds| && forall k | 0 <= k < |ds| :: Sendable(ds[k]) && Carries(ps[k], tag, DataChunk(ds[k]))
  {
    hide Packet, Carries;
    if ds != [] {
      var n := |ds| - 1;
      DataFits(ds[n]);
      DataPacketsCarry(tag, ds[..n]);
      OnePacket(tag, DataChunk(ds[n]));
    }
  }

  /** Nothing was sent, or one packet that carries `a`, under the tag the other end chose. */
  predicate Answered(w: World, w': World, a: Option<Chunk>) {
    match a
    case None => w'.output == w.output
    case Some(c) =>
      && |w'.output| == |w.output| + 1 && w.output <= w'.output
      && Carries(w'.output[|w.output|], w'.peer.remoteTag, c)
  }

  /** What setup chunks leave of the data path: all of it but the cursor, or, if the end gives up, nothing held back. */
  predicate KeepsData(w: World, w': World, givesUp: bool) {
    && w'.nextSSN == w.nextSSN && w'.rx.consumed == w.rx.consumed
    && w'.rx.reassembly.emitted == w.rx.reassembly.emitted
    && w'.sentQueue == (if givesUp then map[] else w.sentQueue)
    && w'.rx.outOfOrder == (if givesUp then map[] else w.rx.outOfOrder)
    && w'.rx.reassembly.fragments == (if givesUp then map[] else w.rx.reassembly.fragments)
  }

  /** The setup chunks by their numbers do to the end what the setup says. */
  lemma SetupAnswers(cmp: Comparison, answers: Answers, hmac: Hmac, newSecret: Buffer, w: World, c: Chunk,
      w': World, threw: bool) returns (a: Option<Chunk>)
    requires Digests(hmac) && Fits(c) && ChunkHandled(cmp, answers, hmac, newSecret, w, c, w', threw)
    requires c.typ == INIT || c.typ == INIT_ACK || c.typ == COOKIE_ECHO || c.typ == COOKIE_ACK
    ensures Answered(w, w', a)
    ensures c.typ == 1 ==> w'.peer == Setup.HandleInit(hmac, newSecret, w.peer, c).0
    ensures c.typ == 2 ==> w'.peer == Setup.HandleInitAck(w.peer, c).0
    ensures c.typ == 10 ==> w'.peer == Setup.HandleCookieEcho(hmac, w.peer, c).0
    ensures c.typ == 11 ==> w'.peer == Setup.HandleCookieAck(w.peer)
    ensures KeepsData(w, w', w'.peer.state == CLOSED && w.peer.state != CLOSED)
    ensures w'.rx.cumulative == w'.peer.cumulative
  {
    hide Packet, Carries, ParseInit, FindCookie, InitAckChunk, Cookie, ToUint32, CookieRejected;
    var out := if c.typ == INIT then Setup.HandleInit(hmac, newSecret, w.peer, c).1
               else if c.typ == INIT_ACK then Setup.HandleInitAck(w.peer, c).1
               else if c.typ == COOKIE_ECHO then Setup.HandleCookieEcho(hmac, w.peer, c).1
               else None;
    a := None;
    if out.Some? {
      OnePacket(out.value.tag, out.value.chunk);
      a := Some(out.value.chunk);
    }
  }

  /** One SACK (3) has gone out that reads as what was received, unless it cannot be written. */
  ghost predicate SackedFor(w: World, rx: Receiver, sorted: seq<u32>, w': World, threw: bool) {
    match SackFor(rx.cumulative, sorted)
    case None => threw && w' == WithRx(w, rx)
    case Some(s) =>
      && !threw && w' == WithRx(w, rx).(output := w'.output)
      && SackFits(s) && Answered(w, w', Some(Chunk(3, 0, SackBytes(s)))) && SackOf(SackBytes(s)) == Some(s)
  }

  lemma DataAnswers(cmp: Comparison, w: World, rx: Receiver, cut: bool, w': World, threw: bool)
    returns (a: Option<Chunk>)
    requires DataHandled(cmp, WithRx(w, rx), cut, w', threw)
    ensures Answered(w, w', a)
    ensures if cut then threw && w' == WithRx(w, rx)
      else exists sorted :: IsSorting(cmp, rx.outOfOrder.Keys, sorted) && SackedFor(w, rx, sorted, w', threw)
  {
    hide Packet, Carries, SackFor, IsSorting, SackBytes, SackOf;
    a := None;
    if !cut {
      var sorted :| IsSorting(cmp, rx.outOfOrder.Keys, sorted) && SackSent(WithRx(w, rx), sorted, w', threw);
      var sack := SackFor(rx.cumulative, sorted);
      if sack.Some? {
        OnePacket(w.peer.remoteTag, SackChunk(sack.value));
        SackRoundTrip(sack.value);
        a := Some(SackChunk(sack.value));
      }
      assert SackedFor(w, rx, sorted, w', threw);
    }
  }

  /** Section 8.5 of RFC 4960: whatever chunk comes in, what is answered goes under the other end's tag. */
  lemma AnswersCarryThePeersTag(cmp: Comparison, answers: Answers, hmac: Hmac, newSecret: Buffer, w: World, c: Chunk,
      w': World, threw: bool) returns (a: Option<Chunk>)
    requires Digests(hmac) && Fits(c) && ChunkHandled(cmp, answers, hmac, newSecret, w, c, w', threw)
    ensures Answered(w, w', a)
  {
    hide Answered, DeliverHeard, DataHandled, ParseData, SackOf, Association.HandleSack, Setup.HandleInit,
         Setup.HandleInitAck, Packet;
    if c.typ == INIT || c.typ == INIT_ACK || c.typ == COOKIE_ECHO || c.typ == COOKIE_ACK {
      a := SetupAnswers(cmp, answers, hmac, newSecret, w, c, w', threw);
    } else if c.typ == DATA && ParseData(c.flags, c.body).Some? {
      var o := DeliverHeard(cmp, w.rx, ParseData(c.flags, c.body).value,
        SctpAssociation.Hearing(answers, w.peer.state == ESTABLISHED));
      a := DataAnswers(cmp, w, o.rx, o.threw, w', threw);
    } else {
      a := ControlAnswers(cmp, answers, hmac, newSecret, w, c, w', threw);
    }
  }

  /**
   * The remaining chunks, by their numbers: a HEARTBEAT (4) is echoed as a HEARTBEAT_ACK (5), a SHUTDOWN (7)
   * answered by a SHUTDOWN_ACK (8), and it closes the association, as an ABORT (6) does without an answer.
   */
  lemma ControlAnswers(cmp: Comparison, answers: Answers, hmac: Hmac, newSecret: Buffer, w: World, c: Chunk,
      w': World, threw: bool) returns (a: Option<Chunk>)
    requires Digests(hmac) && Fits(c) && ChunkHandled(cmp, answers, hmac, newSecret, w, c, w', threw)
    requires c.typ == DATA ==> ParseData(c.flags, c.body) == None
    requires c.typ != INIT && c.typ != INIT_ACK && c.typ != COOKIE_ECHO && c.typ != COOKIE_ACK
    ensures Answered(w, w', a) && w'.peer.remoteTag == w.peer.remoteTag
    ensures c.typ == 4 ==> a == Some(Chunk(5, 0, c.body)) && w' == w.(output := w'.output)
    ensures c.typ == 7 ==> a == Some(Chunk(8, 0, []))
    ensures c.typ != 4 && c.typ != 7 ==> a == None
    ensures (c.typ == 6 || c.typ == 7) && w.peer.state == CLOSED ==> w' == w.(output := w'.output)
    ensures c.typ == 6 || c.typ == 7 ==>
      && w'.peer.state == CLOSED
      && (w.peer.state != CLOSED ==>
            w'.sentQueue == map[] && w'.rx.outOfOrder == map[] && w'.rx.reassembly.fragments == map[])
      && w'.rx.cumulative == w.rx.cumulative && w'.rx.reassembly.emitted == w.rx.reassembly.emitted
    ensures c.typ > 11 ==> w' == w && !threw
  {
    hide Packet, Carries, SackOf, ParseData, Association.HandleSack;
    a := if c.typ == 4 then Some(Chunk(5, 0, c.body)) else if c.typ == 7 then Some(Chunk(8, 0, [])) else None;
    if a.Some? {
      OnePacket(w.peer.remoteTag, a.value);
    }
  }

  /** A packet with one byte changed anywhere never reaches the chunk parser. */
  lemma CorruptPacketDropped(tag: u32, cs: seq<Chunk>, i: nat, v: byte)
    requires forall c | c in cs :: Fits(c)
    requires i < |Packet(tag, cs)| && v != Packet(tag, cs)[i]
    ensures !Crc.Accepts(Packet(tag, cs)[i := v])
  {
    hide AllChunkBytes, CommonHeader, Crc.Accepts;
    PacketRoundTrip(tag, cs);
    Crc.RejectsChangedByte(Packet(tag, cs), i, v);
  }

  /** The link from one end to the other before any message: as the setup leaves it, if its cursor is right. */
  function NewLink(cmp: Comparison, sender: Peer, receiver: Peer): EndToEnd.Link {
    EndToEnd.Link(Sender(sender.localTSN, map[], map[]),
      Delivery.Inbound(cmp, sender.localTSN, [], Receiver(receiver.cumulative, map[], Delivery.NOTHING, []), {}), {},
          [])
  }

  /**
   * Whatever happened to the setup packets, the data path starts from where its theorems start: towards the
   * client from its COOKIE_ECHO on, and towards the server once that is established.
   */
  lemma SetupStartsTheLink(cmp: Comparison, hmac: Hmac, s0: System, events: seq<Setup.Event>)
    requires Digests(hmac) && Setup.Initial(s0) && Setup.Schedule(hmac, s0, events)
    ensures var s := Setup.Run(hmac, s0, events);
      && ((s.client.state == COOKIE_ECHOED || s.client.state == ESTABLISHED)
          && !s.clientConsumed && s.server.localTSN == s0.server.localTSN ==>
            EndToEnd.Initial(NewLink(cmp, s.server, s.client)))
      && (s.server.state == ESTABLISHED && !s.serverConsumed && s.client.localTSN == s0.client.localTSN ==>
            EndToEnd.Initial(NewLink(cmp, s.client, s.server)))
  {
    hide Setup.Schedule, Setup.Run, Digests;
    SetupAgrees(hmac, s0, events);
    KeepsHistory(hmac, s0, events);
  }
}
