/** Fragmenting a user message and putting it together again are inverse (src/sctp/association.ts:343-380, 420-444). */
module Fragmentation {
  import opened Bytes
  import opened Serial
  import opened Chunks
  import opened Association

  lemma {:induction false} ConsumeAllAppend(r: Reassembly, a: seq<Data>, b: seq<Data>)
    ensures ConsumeAll(r, a + b) == ConsumeAll(ConsumeAll(r, a), b)
  {
    if b == [] {
      assert a + b == a;
    } else {
      ConsumeAllAppend(r, a, b[..|b| - 1]);
      assert (a + b)[..|a + b| - 1] == a + b[..|b| - 1];
    }
  }

  /** Consuming more chunks never takes an emitted message back. */
  lemma {:induction false} EmittedGrows(r: Reassembly, ds: seq<Data>, n: nat)
    requires n <= |ds|
    ensures ConsumeAll(r, ds[..n]).emitted <= ConsumeAll(r, ds).emitted
  {
    if n < |ds| {
      EmittedGrows(r, ds[..|ds| - 1], n);
      assert ds[..|ds| - 1][..n] == ds[..n];
    } else {
      assert ds[..n] == ds;
    }
  }

  /** What each chunk of a message says: whose it is and which part, in consecutive TSNs, all but the last full. */
  lemma PiecesSay(first: u32, ssn: u16, m: Message, unordered: bool, j: nat)
    requires j < |Pieces(first, ssn, m, unordered)|
    ensures var ds := Pieces(first, ssn, m, unordered);
      var d := ds[j];
      && d.tsn == ToUint32(first + j) && d.streamSeq == ssn
      && d.streamId == m.streamId && d.ppid == m.ppid && d.unordered == unordered
      && (d.beginning <==> j == 0) && (d.ending <==> j == |ds| - 1)
      && d.userData == m.data[1200 * j..1200 * j + |d.userData|]
      && (if j < |ds| - 1 then |d.userData| == 1200 else 1200 * j + |d.userData| == |m.data|)
      && |d.userData| <= 1200 && (|m.data| > 0 ==> |d.userData| > 0)
  {}

  /** The payloads of the first `j` pieces. */
  function Parts(m: Message, j: nat): (parts: seq<Buffer>)
    requires j <= PieceCount(|m.data|)
    ensures |parts| == j
  {
    if j == 0 then [] else Parts(m, j - 1) + [PiecePayload(m, j - 1)]
  }

  function PiecePayload(m: Message, j: nat): Buffer
    requires j < PieceCount(|m.data|)
  {
    m.data[MAX_PAYLOAD * j..Min(MAX_PAYLOAD * (j + 1), |m.data|)]
  }

  lemma {:induction false} PartsConcat(m: Message, j: nat)
    requires j <= PieceCount(|m.data|)
    ensures Concat(Parts(m, j)) == m.data[..Min(MAX_PAYLOAD * j, |m.data|)]
  {
    if j > 0 {
      PartsConcat(m, j - 1);
      ConcatPush(Parts(m, j - 1), PiecePayload(m, j - 1));
    }
  }

  lemma {:induction false} PartialPieces(first: u32, ssn: u16, m: Message, unordered: bool, r: Reassembly, j: nat)
    requires 1 <= j < PieceCount(|m.data|) && (m.streamId, unordered) !in r.fragments
    ensures ConsumeAll(r, Pieces(first, ssn, m, unordered)[..j])
         == r.(fragments := r.fragments[(m.streamId, unordered) := FragmentBuffer(m.ppid, Parts(m, j))])
  {
    hide Pieces, ToUint32;
    var ds := Pieces(first, ssn, m, unordered);
    assert ds[..j][..j - 1] == ds[..j - 1];
    assert ds[j - 1].userData == PiecePayload(m, j - 1);
    if j > 1 {
      PartialPieces(first, ssn, m, unordered, r, j - 1);
    } else {
      assert ds[..0] == [];
      assert Parts(m, 0) == [] && Parts(m, 1) == [PiecePayload(m, 0)];
    }
  }

  /**
   * Consuming all pieces of a message, whatever its length, emits exactly that message and leaves no
   * trace, provided no other message is in progress on its stream.
   */
  lemma PiecesReassemble(first: u32, ssn: u16, m: Message, unordered: bool, r: Reassembly)
    requires (m.streamId, unordered) !in r.fragments
    ensures ConsumeAll(r, Pieces(first, ssn, m, unordered)) == Reassembly(r.fragments, r.emitted + [m])
  {
    hide Pieces, ToUint32;
    var ds, n := Pieces(first, ssn, m, unordered), PieceCount(|m.data|);
    assert ds[n - 1].userData == PiecePayload(m, n - 1);
    if n == 1 {
      assert ds[..0] == [];
      assert ds[0].userData == m.data;
    } else {
      PartialPieces(first, ssn, m, unordered, r, n - 1);
      PartsConcat(m, n);
      assert m.data[..|m.data|] == m.data;
      var key := (m.streamId, unordered);
      assert r.fragments[key := FragmentBuffer(m.ppid, Parts(m, n - 1))] - {key} == r.fragments;
    }
  }

  // ---- Stream sequence numbers ----

  /** The sender after these messages, each with its `unordered` flag. */
  function SendAll(s: Sender, sends: seq<(Message, bool)>): Sender {
    if sends == [] then s
    else
      var n := |sends| - 1;
      Send(SendAll(s, sends[..n]), sends[n].0, sends[n].1)
  }

  function OrderedOn(sends: seq<(Message, bool)>, streamId: nat): nat {
    if sends == [] then 0
    else
      var n := |sends| - 1;
      OrderedOn(sends[..n], streamId) + if !sends[n].1 && sends[n].0.streamId == streamId then 1 else 0
  }

  /**
   * Every piece of an ordered message carries how many ordered messages went before it on its stream, in
   * 16 bits; the pieces of unordered ones carry 0.
   */
  lemma {:induction false} StreamNumbersCount(s: Sender, sends: seq<(Message, bool)>, m: Message, unordered: bool)
    requires s.nextSSN == map[]
    ensures forall d | d in MessagePieces(SendAll(s, sends), m, unordered) ::
      d.streamSeq == if unordered then 0 else OrderedOn(sends, m.streamId) % 0x1_0000
  {
    NextNumberCounts(s, sends, m.streamId);
  }

  lemma {:induction false} NextNumberCounts(s: Sender, sends: seq<(Message, bool)>, streamId: nat)
    requires s.nextSSN == map[]
    ensures StreamSeq(SendAll(s, sends), streamId, false) == OrderedOn(sends, streamId) % 0x1_0000
  {
    hide MessagePieces, Enqueue, ToUint32;
    if sends != [] {
      NextNumberCounts(s, sends[..|sends| - 1], streamId);
    }
  }
}
