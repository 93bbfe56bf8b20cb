/** The data-channel objects, whose methods update their fields
 * (src/sctp/datachannel-manager.ts, src/datachannel/RTCDataChannel.ts). */
module DataChannelObjects {
  import opened Bytes
  import opened Association
  import opened DataChannels
  import Dcep

  class DataChannelManager {
    var channels: map<nat, Channel>
    var nextStreamId: nat
    var log: seq<Message>  // calls to the association's sendData once it is established, refused ones included
    var unordered: seq<bool>  // the option each of these calls was made with

    ghost function View(): Manager
      reads this
    {
      Manager(channels, nextStreamId, log)
    }

    constructor (isDtlsClient: bool)
      ensures View() == Manager(map[], if isDtlsClient then 0 else 1, []) && unordered == []
    {
      channels, nextStreamId, log, unordered := map[], if isDtlsClient then 0 else 1, [], [];
    }

    /**
     * A channel without an id of its own. Throws when the OPEN cannot be written or sent; the entry and the
     * id stay taken, and a refused call has still cost the association a TSN and a stream number.
     */
    method OpenChannel(name: Buffer, init: Init, established: bool) returns (id: nat, threw: bool)
      modifies this
      ensures View() == var taken := DataChannels.OpenChannel(old(View()), name, init);
        if established then taken else taken.(log := old(log))
      ensures id in channels && id !in old(channels)
      ensures channels == old(channels)[id := Channel(name, init, false, [], [])]
      ensures threw <==> !established || id > 0xffff || |name| > 0xffff || |init.protocol| > 0xffff
      ensures unordered == if log == old(log) then old(unordered) else old(unordered) + [false]
    {
      hide Dcep.OpenBytes, ChannelType, ReliabilityParam;
      id := AllocateStreamId();
      var channel := Channel(name, init, false, [], []);
      channels := channels[id := channel];
      var open := Dcep.EncodeOpen(OpenOf(channel));
      if open == None {
        return id, true;
      }
      threw := SendData(id, PPID_DCEP, open.value[..], false, established);
    }

    /** The association's `sendData`: refused before anything changes, or inside the encoding of the chunk. */
    method SendData(id: nat, ppid: u32, data: Buffer, isUnordered: bool, established: bool) returns (threw: bool)
      modifies this`log, this`unordered
      ensures log == if established then old(log) + [Message(id, ppid, data)] else old(log)
      ensures unordered == if established then old(unordered) + [isUnordered] else old(unordered)
      ensures threw <==> !established || !Carriable(Message(id, ppid, data))
    {
      if !established {
        return true;
      }
      log, unordered := log + [Message(id, ppid, data)], unordered + [isUnordered];
      threw := id > 0xffff;
    }

    method AllocateStreamId() returns (id: nat)
      modifies this`nextStreamId
      ensures id == FirstFree(channels.Keys, old(nextStreamId)) && nextStreamId == id + 2
    {
      id := nextStreamId;
      ghost var above := channels.Keys;
      while id in channels
        invariant FirstFree(channels.Keys, nextStreamId) == FirstFree(above, id)
        invariant id !in channels || id in above
        invariant above <= channels.Keys && forall k | k in channels && k >= id :: k in above
        decreases |above|
      {
        above := above - {id};
        id := id + 2;
      }
      nextStreamId := id + 2;
    }

    /** The listener bound to a channel's outgoing frames. */
    method Sender(id: nat, data: Buffer, isBinary: bool, established: bool) returns (threw: bool)
      requires id in channels
      modifies this`log, this`channels, this`unordered
      ensures unordered == if established then old(unordered) + [old(channels)[id].init.unordered] else old(unordered)
      ensures View() == if established then SendFrame(old(View()), id, Frame(data, isBinary)) else old(View())
      ensures threw <==> !established || id > 0xffff
    {
      var ppid;
      if isBinary {
        ppid := if |data| == 0 then PPID_BINARY_EMPTY else PPID_BINARY;
      } else {
        ppid := if |data| == 0 then PPID_STRING_EMPTY else PPID_STRING;
      }
      var payload := if |data| == 0 then [0] else data;
      threw := SendData(id, ppid, payload, channels[id].init.unordered, established);
      if established {
        channels := channels[id := channels[id].(sent := channels[id].sent + [Frame(data, isBinary)])];
      }
    }

    /** A throw leaves the channels and the association as they were. */
    method OnSctpMessage(m: Message, established: bool) returns (threw: bool)
      requires Carriable(m)  // read from two bytes
      modifies this
      ensures threw <==> AnswerThrows(m, established)
      ensures View() == if threw then old(View()) else OnMessage(old(View()), m)
      ensures unordered == if log == old(log) then old(unordered) else old(unordered) + [false]
    {
      hide Dcep.DecodeOpen;
      if m.ppid == PPID_DCEP {
        threw := OnDcep(m, established);
        return;
      }
      threw := false;
      if m.streamId !in channels {
        return;
      }
      var isBinary := m.ppid == PPID_BINARY || m.ppid == PPID_BINARY_EMPTY || m.ppid == PPID_BINARY_PARTIAL;
      var isEmpty := m.ppid == PPID_STRING_EMPTY || m.ppid == PPID_BINARY_EMPTY;
      Emit(m.streamId, Received(Frame(if isEmpty then [] else m.data, isBinary)));
    }

    method Emit(id: nat, e: ChannelEvent)
      requires id in channels
      modifies this`channels
      ensures channels == old(channels)[id := old(channels)[id].(events := old(channels)[id].events + [e])]
    {
      channels := channels[id := channels[id].(events := channels[id].events + [e])];
    }

    method OnDcep(m: Message, established: bool) returns (threw: bool)
      requires Carriable(m) && m.ppid == PPID_DCEP
      modifies this
      ensures threw <==> AnswerThrows(m, established)
      ensures View() == if threw then old(View()) else DataChannels.OnDcep(old(View()), m)
      ensures unordered == if log == old(log) then old(unordered) else old(unordered) + [false]
    {
      hide Dcep.DecodeOpen;
      threw := false;
      var typ := Dcep.MessageType(m.data);
      if typ == Dcep.DATA_CHANNEL_OPEN {
        var open := Dcep.DecodeOpen(m.data);
        if open == None {
          return true;
        }
        threw := SendData(m.streamId, PPID_DCEP, Dcep.ACK_BYTES, false, established);
        if threw {
          return;
        }
        AcceptChannel(m.streamId, open.value);
      } else if typ == Dcep.DATA_CHANNEL_ACK {
        if m.streamId in channels && !channels[m.streamId].acked {
          channels := channels[m.streamId := channels[m.streamId].(acked := true)];
          Emit(m.streamId, Opened);
        }
      }
    }

    /** Called inside the open request. */
    method AcceptChannel(id: nat, open: Dcep.Open)
      modifies this`channels
      ensures channels == old(channels)[id := Accepted(open)]
    {
      var init := Init(open.channelType >= 0x80, None, None, open.protocol);
      channels := channels[id := Channel(open.name, init, true, [], [])];
      assert [] + [Opened] == [Opened];
      Emit(id, Opened);
      assert channels[id] == Accepted(open);
    }
  }

  /** An OPEN that cannot be read, or that arrives before this end may send its ACK. */
  predicate AnswerThrows(m: Message, established: bool) {
    IsOpenMessage(m) && (!established || Dcep.DecodeOpen(m.data) == None)
  }

  datatype ReadyState = CONNECTING | OPEN | CLOSING | CLOSED

  /** What drives a channel: its transport, its application, and the deferred half of `close()`. */
  datatype Signal = TransportOpen | CloseCalled | CloseDeferred

  function Follow(s: ReadyState, e: Signal): ReadyState {
    match e
    case TransportOpen => if s == CLOSED then CLOSED else OPEN
    case CloseCalled => if s == CONNECTING || s == OPEN then CLOSING else s
    case CloseDeferred => if s == CLOSING then CLOSED else s
  }

  function FollowAll(s: ReadyState, es: seq<Signal>): ReadyState
    decreases |es|
  {
    if es == [] then s else FollowAll(Follow(s, es[0]), es[1..])
  }

  function Rank(s: ReadyState): nat {
    match s case CONNECTING => 0 case OPEN => 1 case CLOSING => 2 case CLOSED => 3
  }

  /** Some prefix leaves the channel closing just when the transport opens it. */
  predicate ReopensWhileClosing(s: ReadyState, es: seq<Signal>)
    decreases |es|
  {
    es != [] && ((s == CLOSING && es[0] == TransportOpen) || ReopensWhileClosing(Follow(s, es[0]), es[1..]))
  }

  predicate NeverGoesBack(s: ReadyState, es: seq<Signal>)
    decreases |es|
  {
    es != [] ==> Rank(s) <= Rank(Follow(s, es[0])) && NeverGoesBack(Follow(s, es[0]), es[1..])
  }

  /** The ready state is monotone over a run exactly when no open arrives while the channel is closing. */
  lemma {:induction false} MonotoneIff(s: ReadyState, es: seq<Signal>)
    ensures NeverGoesBack(s, es) <==> !ReopensWhileClosing(s, es)
    decreases |es|
  {
    if es != [] {
      MonotoneIff(Follow(s, es[0]), es[1..]);
    }
  }

  lemma ClosingReopens()
    ensures FollowAll(CONNECTING, [CloseCalled, TransportOpen]) == OPEN
  {
    assert [CloseCalled, TransportOpen][1..] == [TransportOpen];
  }

  /** Whatever happened before, a closed channel stays closed. */
  lemma {:induction false} ClosedIsFinal(es: seq<Signal>)
    ensures FollowAll(CLOSED, es) == CLOSED
    decreases |es|
  {
    if es != [] {
      ClosedIsFinal(es[1..]);
    }
  }

  /** The deferred half of a close comes before the transport opens the channel again. */
  predicate FinishesClosing(es: seq<Signal>)
    decreases |es|
  {
    es != [] && es[0] != TransportOpen && (es[0] == CloseDeferred || FinishesClosing(es[1..]))
  }

  predicate ClosesWithin(es: seq<Signal>)
    decreases |es|
  {
    es != [] && ((es[0] == CloseCalled && FinishesClosing(es[1..])) || ClosesWithin(es[1..]))
  }

  /** Over any run, a channel ends closed exactly if some close is finished before the transport opens it again. */
  lemma {:induction false} ClosedIff(s: ReadyState, es: seq<Signal>)
    ensures FollowAll(s, es) == CLOSED <==>
      s == CLOSED || (s == CLOSING && FinishesClosing(es)) || ClosesWithin(es)
    decreases |es|
  {
    if es != [] {
      ClosedIff(Follow(s, es[0]), es[1..]);
    }
  }

  predicate EndsOpen(es: seq<Signal>) {
    es != [] && (es[|es| - 1] == TransportOpen || (es[|es| - 1] == CloseDeferred && EndsOpen(es[..|es| - 1])))
  }

  /** And a new channel ends open exactly if it is not closed and the transport was the last to have its say. */
  lemma {:induction false} OpenIff(es: seq<Signal>)
    ensures FollowAll(CONNECTING, es) == OPEN <==> !ClosesWithin(es) && EndsOpen(es)
    decreases |es|
  {
    if es != [] {
      var n := |es| - 1;
      OpenIff(es[..n]);
      FollowLast(CONNECTING, es);
      ClosedIff(CONNECTING, es);
      ClosedIff(CONNECTING, es[..n]);
    }
  }

  lemma {:induction false} FollowLast(s: ReadyState, es: seq<Signal>)
    requires es != []
    ensures FollowAll(s, es) == Follow(FollowAll(s, es[..|es| - 1]), es[|es| - 1])
    decreases |es|
  {
    if |es| > 1 {
      FollowLast(Follow(s, es[0]), es[1..]);
      assert es[1..][..|es| - 2] == es[..|es| - 1][1..];
    }
  }

  function Max(a: int, b: int): int { if a >= b then a else b }

  /** What `send` announces besides the frame. */
  datatype SendEvent = BufferedAmountLow | Error

  class RTCDataChannel {
    var id: Option<nat>
    var readyState: ReadyState
    var connected: bool
    var bufferedAmount: nat
    var bufferedAmountLowThreshold: int
    var announced: seq<SendEvent>
    var outbound: seq<Frame>      // SEND events
    var inbound: seq<Frame>       // 'message' events
    var lifecycle: seq<ReadyState>  // 'open', 'closing' and 'close' events

    constructor (id: Option<nat>)
      ensures this.id == id && readyState == CONNECTING && !connected && bufferedAmount == 0
      ensures bufferedAmountLowThreshold == 0 && announced == [] && outbound == [] && inbound == [] && lifecycle == []
    {
      this.id, readyState, connected, bufferedAmount := id, CONNECTING, false, 0;
      bufferedAmountLowThreshold, announced := 0, [];
      outbound, inbound, lifecycle := [], [], [];
    }

    /**
     * `transportThrows`: whether the SEND listener fails, which is announced and thrown on. The buffered
     * amount always returns to its value.
     */
    method Send(data: Buffer, isBinary: bool, transportThrows: bool) returns (threw: bool)
      modifies this`bufferedAmount, this`outbound, this`announced
      ensures threw <==> readyState != OPEN || !connected || transportThrows
      ensures outbound == if threw then old(outbound) else old(outbound) + [Frame(data, isBinary)]
      ensures bufferedAmount == old(bufferedAmount)
      ensures announced == old(announced) +
        if readyState != OPEN || !connected then []
        else if transportThrows then [Error]
        else if bufferedAmount <= bufferedAmountLowThreshold then [BufferedAmountLow]
        else []
    {
      if readyState != OPEN || !connected {
        return true;
      }
      bufferedAmount := bufferedAmount + |data|;
      if transportThrows {
        bufferedAmount := Max(0, bufferedAmount - |data|);
        announced := announced + [Error];
        return true;
      }
      outbound := outbound + [Frame(data, isBinary)];
      bufferedAmount := Max(0, bufferedAmount - |data|);
      EmitBufferedAmountLow();
      threw := false;
    }

    method EmitBufferedAmountLow()
      modifies this`announced
      ensures announced == old(announced) +
        if bufferedAmount <= bufferedAmountLowThreshold then [BufferedAmountLow] else []
    {
      if bufferedAmount <= bufferedAmountLowThreshold {
        announced := announced + [BufferedAmountLow];
      }
    }

    method SetBufferedAmountLowThreshold(value: int)
      modifies this`bufferedAmountLowThreshold
      ensures bufferedAmountLowThreshold == value
    {
      bufferedAmountLowThreshold := value;
    }

    /** Every change is announced once; setting the same state again is silent. */
    method SetState(s: ReadyState)
      modifies this`readyState, this`lifecycle
      ensures readyState == s
      ensures lifecycle == if s == old(readyState) then old(lifecycle) else old(lifecycle) + [s]
    {
      if s != readyState {
        readyState := s;
        lifecycle := lifecycle + [s];
      }
    }

    method OnOpenInternal()
      modifies this`connected, this`readyState, this`lifecycle
      ensures readyState == Follow(old(readyState), TransportOpen)
      ensures connected == (old(connected) || old(readyState) != CLOSED)
      ensures lifecycle == if readyState == old(readyState) then old(lifecycle) else old(lifecycle) + [OPEN]
    {
      if readyState != CLOSED {  // the listeners are gone by then
        connected := true;
        SetState(OPEN);
      }
    }

    method OnSetId(id: nat)
      modifies this`id
      ensures this.id == if readyState == CLOSED then old(this.id) else Some(id)
    {
      if readyState != CLOSED {
        this.id := Some(id);
      }
    }

    method OnReceiveInternal(data: Buffer, isBinary: bool)
      modifies this`inbound
      ensures inbound == if readyState == CLOSED then old(inbound) else old(inbound) + [Frame(data, isBinary)]
    {
      if readyState != CLOSED {
        inbound := inbound + [Frame(data, isBinary)];
      }
    }

    method Close()
      modifies this`readyState, this`lifecycle
      ensures readyState == Follow(old(readyState), CloseCalled)
      ensures lifecycle == if readyState == old(readyState) then old(lifecycle) else old(lifecycle) + [CLOSING]
    {
      if readyState == CLOSING || readyState == CLOSED {
        return;
      }
      SetState(CLOSING);
    }

    method FinishClose()
      modifies this`readyState, this`lifecycle
      ensures readyState == Follow(old(readyState), CloseDeferred)
      ensures lifecycle == if readyState == old(readyState) then old(lifecycle) else old(lifecycle) + [CLOSED]
    {
      if readyState == CLOSING {
        SetState(CLOSED);
      }
    }
  }
}
