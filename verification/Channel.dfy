/** One end of a link (yasl/link/transport/channel.cc): the counters and the message database, and
    the sections of code that run under the lock. */
module Channel {
  import opened Wrappers

  /** What one end hands to its transport. Acks and fins travel under reserved keys, which normal
      messages are refused. */
  datatype Message = Normal(key: string, value: Buffer) | Ack | Fin(sentCount: nat)

  const ACK_KEY: string := ['A', 'C', 'K', '\U{0001}', '\U{0000}']
  const FIN_KEY: string := ['F', 'I', 'N', '\U{0001}', '\U{0000}']

  /** The fields of `ChannelBase`. */
  datatype State = State(
    msgDb: map<string, Buffer>,
    waitingFinish: bool,
    throttleWindowSize: nat,
    sentMsgCount: nat,
    receivedMsgCount: nat,
    ackMsgCount: nat,
    receivedFin: bool,
    peerSentMsgCount: nat)

  function Fresh(window: nat): State {
    State(map[], false, window, 0, 0, 0, false, 0)
  }

  /** A normal message: kept for a reader, or acked at once if its key is taken or nobody will read
      any more. The number is that of the acks sent. */
  function OnNormal(s: State, key: string, value: Buffer): (State, nat) {
    var t := s.(receivedMsgCount := s.receivedMsgCount + 1);
    if s.waitingFinish || key in s.msgDb then (t, 1) else (t.(msgDb := s.msgDb[key := value]), 0)
  }

  function OnAck(s: State): State {
    s.(ackMsgCount := s.ackMsgCount + 1)
  }

  /** Only the first fin counts. */
  function OnFin(s: State, sentCount: nat): State {
    if s.receivedFin then s else s.(receivedFin := true, peerSentMsgCount := sentCount)
  }

  function Take(s: State, key: string): State {
    s.(msgDb := s.msgDb - {key})
  }

  /** Unread messages are acked, one ack each. */
  function Stop(s: State): (State, nat) {
    (s.(waitingFinish := true, msgDb := map[]), |s.msgDb|)
  }

  function CountSent(s: State): State {
    s.(sentMsgCount := s.sentMsgCount + 1)
  }

  /** What the waits wait for. A window of 0 is none. */
  predicate ThrottleOpen(window: nat, acks: nat, waitCount: nat) {
    window == 0 || acks + window > waitCount
  }

  predicate PassesThrottle(s: State, waitCount: nat) {
    ThrottleOpen(s.throttleWindowSize, s.ackMsgCount, waitCount)
  }

  predicate FlyingMsgsArrived(s: State) {
    s.receivedMsgCount >= s.peerSentMsgCount
  }

  predicate FlyingAcksArrived(s: State) {
    s.ackMsgCount >= s.sentMsgCount
  }

  function Acks(n: nat): seq<Message> {
    seq(n, _ => Ack)
  }

  class ChannelBase {
    var msgDb: map<string, Buffer>
    var waitingFinish: bool
    var throttleWindowSize: nat
    var sentMsgCount: nat
    var receivedMsgCount: nat
    var ackMsgCount: nat
    var receivedFin: bool
    var peerSentMsgCount: nat
    /** Everything handed to `SendAsyncImpl`, in order. */
    var outbox: seq<Message>

    ghost function GetState(): State
      reads this
    {
      State(msgDb, waitingFinish, throttleWindowSize, sentMsgCount, receivedMsgCount, ackMsgCount, receivedFin, peerSentMsgCount)
    }

    constructor ()
      ensures GetState() == Fresh(0) && outbox == []
    {
      msgDb, waitingFinish, throttleWindowSize, sentMsgCount := map[], false, 0, 0;
      receivedMsgCount, ackMsgCount, receivedFin, peerSentMsgCount, outbox := 0, 0, false, 0, [];
    }

    method SendAsyncImpl(m: Message)
      modifies this`outbox
      ensures outbox == old(outbox) + [m]
    {
      outbox := outbox + [m];
    }

    method SetThrottleWindowSize(size: nat)
      modifies this`throttleWindowSize
      ensures GetState() == old(GetState()).(throttleWindowSize := size)
    {
      throttleWindowSize := size;
    }

    /** The locked part of `Recv`: fails, changing nothing, when the wait for the key times out. */
    method TakeMessage(key: string) returns (r: Result<Buffer>)
      modifies this`msgDb
      ensures r == if key in old(msgDb) && key != ACK_KEY && key != FIN_KEY then Ok(old(msgDb)[key]) else Err
      ensures GetState() == if r.Ok? then Take(old(GetState()), key) else old(GetState())
    {
      if key == ACK_KEY || key == FIN_KEY || key !in msgDb {
        return Err;
      }
      r := Ok(msgDb[key]);
      msgDb := msgDb - {key};
    }

    /** `Recv`: the ack follows after the lock has been released. */
    method Recv(key: string) returns (r: Result<Buffer>)
      modifies this`msgDb, this`outbox
      ensures r == if key in old(msgDb) && key != ACK_KEY && key != FIN_KEY then Ok(old(msgDb)[key]) else Err
      ensures GetState() == if r.Ok? then Take(old(GetState()), key) else old(GetState())
      ensures outbox == if r.Ok? then old(outbox) + [Ack] else old(outbox)
    {
      r := TakeMessage(key);
      if r.Ok? {
        SendAsyncImpl(Ack);
      }
    }

    method OnNormalMessage(key: string, value: Buffer)
      modifies this`msgDb, this`receivedMsgCount, this`outbox
      ensures GetState() == OnNormal(old(GetState()), key, value).0
      ensures outbox == old(outbox) + Acks(OnNormal(old(GetState()), key, value).1)
    {
      receivedMsgCount := receivedMsgCount + 1;
      if !waitingFinish {
        if key in msgDb {
          SendAsyncImpl(Ack);
        } else {
          msgDb := msgDb[key := value];
        }
      } else {
        SendAsyncImpl(Ack);
      }
    }

    method OnMessage(m: Message)
      modifies this`msgDb, this`receivedMsgCount, this`outbox, this`ackMsgCount, this`receivedFin, this`peerSentMsgCount
      ensures match m
              case Ack => GetState() == OnAck(old(GetState())) && outbox == old(outbox)
              case Fin(n) => GetState() == OnFin(old(GetState()), n) && outbox == old(outbox)
              case Normal(key, value) =>
                && GetState() == OnNormal(old(GetState()), key, value).0
                && outbox == old(outbox) + Acks(OnNormal(old(GetState()), key, value).1)
    {
      match m
      case Ack => ackMsgCount := ackMsgCount + 1;
      case Fin(n) =>
        if !receivedFin {
          receivedFin := true;
          peerSentMsgCount := n;
        }
      case Normal(key, value) => OnNormalMessage(key, value);
    }

    /** `SendAsync` and `Send` up to the throttle wait: the message is handed over before it is counted. */
    method SendAsync(key: string, value: Buffer) returns (r: Result<nat>)
      modifies this`outbox, this`sentMsgCount
      ensures r == if key != ACK_KEY && key != FIN_KEY then Ok(old(sentMsgCount) + 1) else Err
      ensures GetState() == if r.Ok? then CountSent(old(GetState())) else old(GetState())
      ensures outbox == if r.Ok? then old(outbox) + [Normal(key, value)] else old(outbox)
    {
      if key == ACK_KEY || key == FIN_KEY {
        return Err;
      }
      SendAsyncImpl(Normal(key, value));
      sentMsgCount := sentMsgCount + 1;
      return Ok(sentMsgCount);
    }

    /** `StopReceivingAndAckUnreadMsgs`. */
    method StopReceivingAndAckUnreadMsgs()
      modifies this`waitingFinish, this`msgDb, this`outbox
      ensures GetState() == Stop(old(GetState())).0
      ensures outbox == old(outbox) + Acks(Stop(old(GetState())).1)
    {
      waitingFinish := true;
      var unread := msgDb.Keys;
      while unread != {}
        invariant GetState() == old(GetState()).(waitingFinish := true)
        invariant unread <= msgDb.Keys && outbox == old(outbox) + Acks(|msgDb.Keys| - |unread|)
        decreases |unread|
      {
        var key :| key in unread;
        SendAsyncImpl(Ack);
        unread := unread - {key};
      }
      assert |msgDb.Keys| == |msgDb|;
      msgDb := map[];
    }

    /** The first half of `WaitForFinAndFlyingMsg`: the fin carries the number of messages sent. */
    method SendFin()
      modifies this`outbox
      ensures outbox == old(outbox) + [Fin(old(sentMsgCount))]
    {
      SendAsyncImpl(Fin(sentMsgCount));
    }
  }
}
