/** HTTP/2 connections, whole frames at a time: which streams there are, what may follow unfinished
    headers, and the ledger of the flow-control windows (RFC 7540, sections 5.1, 6.9 and 6.10). */
module Http2 {
  import opened Basics

  type StreamId = nat

  datatype State = Idle | Open | HalfClosed | Closed

  /** A stream: the length its headers announced, or -1, and what its DATA frames carried so far. */
  datatype Stream = Stream(state: State, windowSize: int, contentLength: int, consumedData: nat, hasBody: bool)

  datatype Error =
    | NoError | ProtocolError | InternalError | FlowControlError | StreamClosed | FrameSizeError
    | Other(code: nat)

  /** What HEADERS and CONTINUATION frames carry besides the header block. */
  datatype Block = Block(endStream: bool, endHeaders: bool, padLength: nat, dependsOn: Option<StreamId>)

  /** The header decoder's answer to a block, and the length the block announced. */
  datatype Decoded = Decoded(error: Error, contentLength: Option<int>)

  datatype Setting =
    | EnablePush(value: nat) | InitialWindowSize(value: nat) | MaxFrameSize(value: nat)
    | Another(id: nat, value: nat)

  datatype Frame =
    | Settings(streamId: StreamId, len: nat, ack: bool, settings: seq<Setting>)
    | Headers(streamId: StreamId, len: nat, block: Block)
    | Continuation(streamId: StreamId, len: nat, block: Block)
    | Data(streamId: StreamId, len: nat, endStream: bool, padLength: Option<nat>)
    | WindowUpdate(streamId: StreamId, len: nat, increment: nat)
    | RstStream(streamId: StreamId, len: nat)
    | Priority(streamId: StreamId, len: nat, dependsOn: StreamId)
    | Ping(streamId: StreamId, len: nat, ack: bool)
    | PushPromise(streamId: StreamId, len: nat)
    | GoAway(streamId: StreamId, len: nat)
    | Unknown(streamId: StreamId, len: nat)

  /** A DATA frame the server sent; the length is negative when the window was. */
  datatype Sent = Sent(streamId: StreamId, len: int, endStream: bool)

  /** A window increment the server accepted; stream 0 is the connection. */
  datatype Grant = Grant(streamId: StreamId, increment: nat)

  const MAX_WINDOW: int := 0x7fff_ffff

  predicate Odd(id: StreamId) {
    id % 2 == 1
  }

  // ----- The ledger ----------------------------------------------------------------------------

  /** What was taken from a stream's window: every DATA frame but those that end the stream. */
  function Charged(sent: seq<Sent>, id: StreamId): int {
    if sent == [] then 0
    else
      var last := sent[|sent| - 1];
      Charged(sent[..|sent| - 1], id) + if last.streamId == id && !last.endStream then last.len else 0
  }

  /** What was taken from the connection's window. */
  function ChargedAll(sent: seq<Sent>): int {
    if sent == [] then 0
    else
      var last := sent[|sent| - 1];
      ChargedAll(sent[..|sent| - 1]) + if last.endStream then 0 else last.len
  }

  lemma ChargedMore(sent: seq<Sent>, s: Sent, id: StreamId)
    ensures Charged(sent + [s], id) == Charged(sent, id) + if s.streamId == id && !s.endStream then s.len else 0
    ensures ChargedAll(sent + [s]) == ChargedAll(sent) + if s.endStream then 0 else s.len
  {
    assert (sent + [s])[..|sent|] == sent;
  }

  lemma {:induction false} NeverCharged(sent: seq<Sent>, id: StreamId)
    requires forall s <- sent :: s.streamId != id
    ensures Charged(sent, id) == 0
  {
    if sent == [] {
    } else {
      assert sent[|sent| - 1] in sent;
      NeverCharged(sent[..|sent| - 1], id);
    }
  }

  /** The increments accepted for a stream, or for the connection. */
  function Granted(accepted: seq<Grant>, id: StreamId): nat {
    if accepted == [] then 0
    else
      var last := accepted[|accepted| - 1];
      Granted(accepted[..|accepted| - 1], id) + if last.streamId == id then last.increment else 0
  }

  lemma GrantedMore(accepted: seq<Grant>, g: Grant, id: StreamId)
    ensures Granted(accepted + [g], id) == Granted(accepted, id) + if g.streamId == id then g.increment else 0
  {
    assert (accepted + [g])[..|accepted|] == accepted;
  }

  lemma {:induction false} NeverGranted(accepted: seq<Grant>, id: StreamId)
    requires forall g <- accepted :: g.streamId != id
    ensures Granted(accepted, id) == 0
  {
    if accepted == [] {
    } else {
      assert accepted[|accepted| - 1] in accepted;
      NeverGranted(accepted[..|accepted| - 1], id);
    }
  }

  /** A stream's window stands at the initial size, plus the increments accepted for it, less what was
      charged to it; whatever the initial size is now. */
  predicate Balanced(s: Stream, id: StreamId, initial: int, accepted: seq<Grant>, sent: seq<Sent>) {
    s.windowSize - initial == Granted(accepted, id) - Charged(sent, id)
  }

  class Connection {
    const maxFrameSize: nat

    var streams: map<StreamId, Stream>
    var maxStreamId: StreamId
    /** The stream whose headers are unfinished, or 0. */
    var streamForContinuation: StreamId
    var windowSize: int
    var settingsInitialWindowSize: int
    var settingsMaxFrameSize: int
    var canPush: bool
    /** DATA frames sent, and streams handed to the application. */
    var sent: seq<Sent>
    var queued: seq<StreamId>
    var closed: bool

    ghost var removed: set<StreamId>
    ghost var accepted: seq<Grant>

    ghost predicate Ids()
      reads this`streams, this`maxStreamId, this`streamForContinuation, this`sent, this`accepted
      reads this`removed
    {
      && (maxStreamId == 0 || Odd(maxStreamId))
      && (forall id <- streams :: Odd(id) && id <= maxStreamId && id !in removed && streams[id].state != Idle)
      && (forall id <- removed :: id <= maxStreamId)
      && (forall s <- sent :: s.streamId <= maxStreamId)
      && (forall g <- accepted :: g.streamId <= maxStreamId)
      && (streamForContinuation == 0 || (Odd(streamForContinuation) && streamForContinuation <= maxStreamId))
    }

    ghost predicate Ledger()
      reads this`streams, this`windowSize, this`settingsInitialWindowSize, this`settingsMaxFrameSize, this`sent
      reads this`accepted
    {
      && (forall id <- streams :: Balanced(streams[id], id, settingsInitialWindowSize, accepted, sent))
      && windowSize == 65535 + Granted(accepted, 0) - ChargedAll(sent)
      && settingsMaxFrameSize >= 16384
    }

    ghost predicate Valid()
      reads this
    {
      Ids() && Ledger()
    }

    /** Identities only go up, and what was removed stays removed. */
    twostate predicate Later()
      reads this
    {
      && old(maxStreamId) <= maxStreamId && old(removed) <= removed
      && old(sent) <= sent && old(accepted) <= accepted && (old(closed) ==> closed)
    }

    constructor (maxFrameSize: nat)
      ensures Valid() && streams == map[] && this.maxFrameSize == maxFrameSize && !closed
      ensures maxStreamId == 0 && streamForContinuation == 0 && windowSize == settingsInitialWindowSize == 65535
      ensures settingsMaxFrameSize == 16384 && canPush && sent == [] && queued == [] && accepted == []
    {
      this.maxFrameSize := maxFrameSize;
      streams, maxStreamId, streamForContinuation := map[], 0, 0;
      windowSize, settingsInitialWindowSize, settingsMaxFrameSize, canPush := 65535, 65535, 16384, true;
      sent, queued, closed := [], [], false;
      removed, accepted := {}, [];
    }

    /** `upgradeH2C`: the request that asked for the upgrade is stream 1. */
    constructor Upgraded(maxFrameSize: nat)
      ensures Valid() && this.maxFrameSize == maxFrameSize && !closed
      ensures streams == map[1 := Stream(HalfClosed, 65535, -1, 0, true)] && maxStreamId == 1
      ensures streamForContinuation == 0 && windowSize == settingsInitialWindowSize == 65535
      ensures settingsMaxFrameSize == 16384 && canPush && sent == [] && queued == [1] && accepted == []
    {
      this.maxFrameSize := maxFrameSize;
      streams, maxStreamId, streamForContinuation := map[1 := Stream(HalfClosed, 65535, -1, 0, true)], 1, 0;
      windowSize, settingsInitialWindowSize, settingsMaxFrameSize, canPush := 65535, 65535, 16384, true;
      sent, queued, closed := [], [1], false;
      removed, accepted := {}, [];
    }

    /** What the ledger says, at any time, of any stream and of the connection. */
    lemma WindowsBalance(id: StreamId)
      requires Valid() && id in streams
      ensures streams[id].windowSize == settingsInitialWindowSize + Granted(accepted, id) - Charged(sent, id)
      ensures windowSize == 65535 + Granted(accepted, 0) - ChargedAll(sent)
    {
    }

    /** One whole frame. An error closes the connection. While headers are unfinished nothing is
        processed but their continuation. `decoded` is the header decoder's answer, `created` whether a
        device for a body could be opened. */
    method ParseFrame(f: Frame, decoded: Decoded, created: bool) returns (ret: Error)
      requires Valid() && !closed
      modifies this
      ensures Valid() && Later() && (closed <==> ret != NoError || f.GoAway?)
      ensures if f.streamId > 0 && f.streamId % 2 == 0 then ret == ProtocolError
              else if f.len > maxFrameSize then ret == FrameSizeError
              else if old(InTurn(f)) then old(Answered(f, decoded, created, ret))
              else ret == ProtocolError
      ensures (f.streamId != 0 && f.streamId % 2 == 0) || f.len > maxFrameSize ==> Unprocessed()
      ensures old(streamForContinuation) != 0 && !(f.Continuation? && f.streamId == old(streamForContinuation))
              ==> Unprocessed()
      ensures f.Continuation? && old(streamForContinuation) == 0 ==> Unprocessed()
      ensures streams.Keys <= old(streams).Keys + {f.streamId} && removed == old(removed)
      ensures f.streamId !in old(streams) && f.streamId in streams ==> f.Headers? && f.streamId > old(maxStreamId)
      ensures sent == old(sent) && Recorded(f) && (!closed ==> Effect(f))
    {
      hide Ids, Ledger, HeadersAnswered, DataAnswered, IncrementAnswered, Continued, Carried, Widened, FirstBad, Agrees;
      ret := NoError;
      if f.streamId != 0 && !Odd(f.streamId) {
        ret := ProtocolError;
      } else if f.len > maxFrameSize {
        ret := FrameSizeError;
      } else if streamForContinuation != 0 {
        if f.Continuation? && f.streamId == streamForContinuation {
          PendingIsKnown();
          ret := ParseHeaders(f.streamId, f.len, f.block, decoded);
        } else {
          ret := ProtocolError;
        }
      } else if f.Continuation? {
        ret := ProtocolError;
      } else {
        ret := ParseByType(f, decoded, created);
      }
      if ret != NoError {
        Close();
      }
    }

    lemma PendingIsKnown()
      requires Valid()
      ensures streamForContinuation <= maxStreamId
    {
    }

    method Close()
      requires Valid()
      modifies this`closed
      ensures Valid() && closed
    {
      closed := true;
    }

    method ParseByType(f: Frame, decoded: Decoded, created: bool) returns (ret: Error)
      requires Valid() && !closed && (f.streamId == 0 || Odd(f.streamId)) && !f.Continuation?
      modifies this
      ensures Valid() && Later()
      ensures streams.Keys <= old(streams).Keys + {f.streamId} && removed == old(removed) && sent == old(sent)
      ensures old(Answered(f, decoded, created, ret)) && (closed <==> f.GoAway?)
      ensures f.WindowUpdate? && ret == NoError ==>
                accepted == old(accepted) + [Grant(f.streamId, f.increment)] && !closed
      ensures !(f.WindowUpdate? && ret == NoError) ==> accepted == old(accepted)
      ensures ret == NoError && !closed ==> Effect(f)
      ensures f.streamId !in old(streams) && f.streamId in streams ==> f.Headers? && f.streamId > old(maxStreamId)
    {
      hide Ids, Ledger, HeadersAnswered, DataAnswered, IncrementAnswered, Continued, Carried, Widened, FirstBad, Agrees;
      ret := NoError;
      match f
      case Settings(id, len, ack, settings) => ret := ParseSettings(id, len, ack, settings);
      case Priority(id, len, dependsOn) => ret := ParsePriority(id, len, dependsOn);
      case Headers(id, len, block) => ret := ParseHeaders(id, len, block, decoded);
      case Ping(id, len, _) => ret := if len != 8 then FrameSizeError else if id != 0 then ProtocolError else NoError;
      case Data(id, len, endStream, padLength) => ret := ParseData(id, len, endStream, padLength, created);
      case PushPromise(_, _) => ret := ProtocolError;
      case RstStream(id, len) => ret := ParseRstStream(id, len);
      case WindowUpdate(id, len, increment) => ret := ParseWindowUpdate(id, len, increment);
      case GoAway(_, _) => Close();
      case Unknown(_, _) =>
    }

    /** While headers are unfinished their continuation is due, and at no other time. */
    predicate InTurn(f: Frame)
      reads this
    {
      if f.Continuation? then streamForContinuation != 0 && f.streamId == streamForContinuation
      else streamForContinuation == 0
    }

    /** When a frame of each type is accepted, and when refused as what. */
    predicate Answered(f: Frame, decoded: Decoded, created: bool, ret: Error)
      reads this
    {
      match f
      case Settings(id, len, ack, settings) =>
        if (ack && len != 0) || len % 6 != 0 then ret == FrameSizeError
        else if id != 0 then ret == ProtocolError
        else if ack || forall s <- settings :: Acceptable(s) then ret == NoError
        else FirstBad(settings, ret)
      case Headers(id, len, block) => HeadersAnswered(id, len, block, decoded, ret)
      case Continuation(id, len, block) => HeadersAnswered(id, len, block, decoded, ret)
      case Data(id, len, endStream, padLength) => DataAnswered(id, len, endStream, padLength, created, ret)
      case WindowUpdate(id, len, increment) => IncrementAnswered(id, len, increment, ret)
      case RstStream(id, len) =>
        ret == if id == 0 then ProtocolError else if len != 4 then FrameSizeError
               else if id in streams then NoError else StreamClosed
      case Priority(id, len, dependsOn) =>
        ret == if len != 5 then FrameSizeError else if id == 0 || dependsOn == id then ProtocolError else NoError
      case Ping(id, len, _) =>
        ret == if len != 8 then FrameSizeError else if id != 0 then ProtocolError else NoError
      case PushPromise(_, _) => ret == ProtocolError
      case _ => ret == NoError
    }

    /** An increment is accepted unless the window would pass 2^31 - 1. */
    predicate IncrementAnswered(id: StreamId, len: nat, increment: nat, ret: Error)
      reads this
    {
      && (ret == FrameSizeError <==> len != 4)
      && (ret == ProtocolError <==> len == 4 && increment == 0)
      && (ret == StreamClosed <==> len == 4 && increment > 0 && id != 0 && id !in streams)
      && (ret == NoError <==>
          && len == 4 && increment > 0
          && if id == 0 then windowSize + increment <= MAX_WINDOW
             else id in streams && streams[id].windowSize + increment <= MAX_WINDOW)
      && ret in {NoError, FrameSizeError, ProtocolError, StreamClosed, FlowControlError}
    }

    predicate DataAnswered(id: StreamId, len: nat, endStream: bool, padLength: Option<nat>, created: bool, ret: Error)
      reads this
    {
      var open := id in streams && streams[id].state == Open;
      && (ret == NoError <==>
          && id != 0 && PadFits(len, padLength) && open && (streams[id].hasBody || created)
          && Agrees(streams[id].contentLength, streams[id].consumedData + Payload(len, padLength), endStream))
      && (ret == StreamClosed <==> id != 0 && PadFits(len, padLength) && !open)
      && (ret == InternalError <==> id != 0 && PadFits(len, padLength) && open && !streams[id].hasBody && !created)
      && ret in {NoError, StreamClosed, InternalError, ProtocolError}
    }

    predicate HeadersAnswered(id: StreamId, len: nat, block: Block, decoded: Decoded, ret: Error)
      reads this
    {
      if Opens(id, len, block) then ret == if block.endHeaders then decoded.error else NoError
      else if id != 0 && len > settingsMaxFrameSize then ret == FrameSizeError
      else if id in streams && id != 0 && block.padLength <= len && block.dependsOn != Some(id) then
        ret == if streams[id].state == Open then ProtocolError else StreamClosed
      else ret == ProtocolError
    }

    /** An increment enters the ledger if and only if its frame is accepted. */
    twostate predicate Recorded(f: Frame)
      reads this
    {
      if f.WindowUpdate? && !closed then accepted == old(accepted) + [Grant(f.streamId, f.increment)]
      else accepted == old(accepted)
    }

    /** What a frame does that does not end the connection. */
    twostate predicate Effect(f: Frame)
      reads this
    {
      match f
      case Settings(_, _, ack, settings) =>
        && Shifted()
        && (ack || (settingsInitialWindowSize == LastWindow(settings, old(settingsInitialWindowSize))
                    && settingsMaxFrameSize == LastFrameSize(settings, old(settingsMaxFrameSize))))
      case Headers(id, _, block) => Continued(id, block) && windowSize == old(windowSize)
      case Continuation(id, _, block) => Continued(id, block) && windowSize == old(windowSize)
      case Data(id, len, endStream, padLength) =>
        && PadFits(len, padLength) && Carried(id, len, endStream, padLength)
        && queued == old(queued) + if endStream then [id] else []
      case RstStream(id, _) =>
        && id in old(streams) && windowSize == old(windowSize) && queued == old(queued)
        && streams == old(streams)[id := old(streams)[id].(state := Closed)]
      case WindowUpdate(id, _, increment) =>
        && queued == old(queued)
        && if id == 0 then windowSize == old(windowSize) + increment && streams == old(streams)
           else windowSize == old(windowSize) && Widened(id, increment)
      case _ => streams == old(streams) && windowSize == old(windowSize) && queued == old(queued)
    }

    /** After accepted data: what the stream had received and the frame agree with the announced length. */
    twostate predicate Carried(id: StreamId, len: nat, endStream: bool, padLength: Option<nat>)
      requires PadFits(len, padLength)
      reads this
    {
      && id in old(streams)
      && var was := old(streams)[id];
         var now := was.consumedData + Payload(len, padLength);
         && was.state == Open && Agrees(was.contentLength, now, endStream)
         && streams == old(streams)[id := was.(hasBody := true, consumedData := now)]
    }

    twostate predicate Widened(id: StreamId, increment: nat)
      reads this
    {
      && id in old(streams)
      && var was := old(streams)[id];
         streams == old(streams)[id := was.(windowSize := was.windowSize + increment)]
    }

    /** After accepted headers: finished or not, and the stream queued once its last are finished. */
    twostate predicate Continued(id: StreamId, block: Block)
      reads this
    {
      && id in streams && streamForContinuation == (if block.endHeaders then 0 else id)
      && (forall i <- old(streams) :: i != id ==> i in streams && streams[i] == old(streams)[i])
      && streams[id].state == (if block.endStream then HalfClosed
                               else if id in old(streams) then old(streams)[id].state else Open)
      && queued == if block.endHeaders && streams[id].state == HalfClosed then old(queued) + [id] else old(queued)
    }

    twostate predicate Unprocessed()
      reads this
    {
      && closed && streams == old(streams) && maxStreamId == old(maxStreamId) && windowSize == old(windowSize)
      && streamForContinuation == old(streamForContinuation) && queued == old(queued)
      && settingsInitialWindowSize == old(settingsInitialWindowSize)
      && settingsMaxFrameSize == old(settingsMaxFrameSize) && canPush == old(canPush)
    }

    /** Every stream stands as before relative to the initial window size. */
    twostate predicate Shifted()
      reads this
    {
      && streams.Keys == old(streams).Keys
      && forall i <- streams ::
           && streams[i].state == old(streams)[i].state
           && streams[i].windowSize - settingsInitialWindowSize
             == old(streams[i].windowSize - settingsInitialWindowSize)
    }

    /** Settings in order; the first bad one ends it. */
    method ParseSettings(id: StreamId, len: nat, ack: bool, settings: seq<Setting>) returns (ret: Error)
      requires Valid() && !closed
      modifies this`streams, this`settingsInitialWindowSize, this`settingsMaxFrameSize, this`canPush
      ensures Valid() && Shifted()
      ensures Answered(Settings(id, len, ack, settings), Decoded(NoError, None), false, ret)
      ensures ret == NoError && !ack ==>
                settingsInitialWindowSize == LastWindow(settings, old(settingsInitialWindowSize))
      ensures ret == NoError && !ack ==> settingsMaxFrameSize == LastFrameSize(settings, old(settingsMaxFrameSize))
    {
      hide Ids, Ledger, Acceptable;
      if (ack && len != 0) || len % 6 != 0 {
        return FrameSizeError;
      } else if id != 0 {
        return ProtocolError;
      }
      if !ack {
        for pos := 0 to |settings|
          invariant Valid() && Shifted()
          invariant forall j :: 0 <= j < pos ==> Acceptable(settings[j])
          invariant settingsInitialWindowSize == LastWindow(settings[..pos], old(settingsInitialWindowSize))
          invariant settingsMaxFrameSize == LastFrameSize(settings[..pos], old(settingsMaxFrameSize))
        {
          assert settings[..pos + 1][..pos] == settings[..pos];
          ret := Apply(settings[pos]);
          if ret != NoError {
            assert settings[pos] in settings;
            return;
          }
        }
        assert settings[..|settings|] == settings;
      }
      ret := NoError;
    }

    /** One setting. A new initial window size shifts every stream's window by the difference. */
    method Apply(s: Setting) returns (ret: Error)
      requires Valid() && !closed
      modifies this`streams, this`settingsInitialWindowSize, this`settingsMaxFrameSize, this`canPush
      ensures Valid() && Shifted() && (ret == NoError <==> Acceptable(s))
      ensures ret != NoError ==> ret == if s.InitialWindowSize? then FlowControlError else ProtocolError
      ensures settingsInitialWindowSize
              == if s.InitialWindowSize? && Acceptable(s) then s.value else old(settingsInitialWindowSize)
      ensures settingsMaxFrameSize == if s.MaxFrameSize? && Acceptable(s) then s.value else old(settingsMaxFrameSize)
      ensures canPush == if s.EnablePush? && Acceptable(s) then s.value == 1 else old(canPush)
    {
      ret := NoError;
      match s
      case EnablePush(value) =>
        if value > 1 {
          return ProtocolError;
        }
        canPush := value == 1;
      case InitialWindowSize(value) =>
        if value > MAX_WINDOW {
          return FlowControlError;
        }
        var difference := value - settingsInitialWindowSize;
        settingsInitialWindowSize := value;
        streams := map i | i in streams :: streams[i].(windowSize := streams[i].windowSize + difference);
      case MaxFrameSize(value) =>
        if value < 16384 || value > 16777215 {
          return ProtocolError;
        }
        settingsMaxFrameSize := value;
      case Another(_, _) =>
    }

    /** After accepted headers: the announced length is the last one given, and nothing else has changed. */
    twostate predicate Announced(id: StreamId, block: Block, decoded: Decoded)
      requires id in streams
      reads this
    {
      var was := if id in old(streams) then old(streams)[id] else Stream(Open, settingsInitialWindowSize, -1, 0, false);
      && streams[id].contentLength == (if block.endHeaders && decoded.contentLength.Some?
                                       then decoded.contentLength.value else was.contentLength)
      && streams[id].consumedData == was.consumedData && streams[id].hasBody == was.hasBody
      && streams[id].windowSize == was.windowSize
    }

    /** A frame of headers opens a stream only above every identity seen so far. */
    method ParseHeaders(id: StreamId, len: nat, block: Block, decoded: Decoded) returns (ret: Error)
      requires Valid() && !closed && (id == 0 || Odd(id))
      modifies this`streams, this`maxStreamId, this`streamForContinuation, this`queued
      ensures Valid() && Later() && streams.Keys <= old(streams).Keys + {id}
      ensures id in streams && id !in old(streams) ==> id == maxStreamId > old(maxStreamId)
      ensures forall i <- old(streams) :: i in streams && streams[i].windowSize == old(streams)[i].windowSize
                && (i != id ==> streams[i] == old(streams)[i])
      ensures old(HeadersAnswered(id, len, block, decoded, ret))
      ensures ret == NoError ==> Continued(id, block) && Announced(id, block, decoded)
      ensures queued == if ret == NoError && block.endHeaders && streams[id].state == HalfClosed then old(queued) + [id]
                        else old(queued)
    {
      hide Ledger, Ids;
      NoneIdle();
      if id == 0 {
        return ProtocolError;
      }
      if len > settingsMaxFrameSize {
        return FrameSizeError;
      }
      if block.padLength > len {
        return ProtocolError;
      }
      if block.dependsOn == Some(id) {
        return ProtocolError;
      }
      ret := StreamFor(id, block);
      if ret != NoError {
        return;
      }
      ret := ReadBlock(id, block, decoded);
    }

    /** A header block of a stream it may belong to. */
    method ReadBlock(id: StreamId, block: Block, decoded: Decoded) returns (ret: Error)
      requires Valid() && id in streams
      modifies this`streams, this`streamForContinuation, this`queued
      ensures Valid() && ret == if block.endHeaders then decoded.error else NoError
      ensures streams == old(streams)[id := AfterBlock(old(streams)[id], block, decoded)]
      ensures streamForContinuation == if block.endHeaders then 0 else id
      ensures queued == if ret == NoError && block.endHeaders && streams[id].state == HalfClosed then old(queued) + [id]
                        else old(queued)
    {
      hide Ledger, Ids;
      Advance(id, block);
      if !block.endHeaders {
        return NoError;
      }
      ret := Finish(id, block, decoded);
    }

    /** The stream that headers belong to, which they may open. */
    method StreamFor(id: StreamId, block: Block) returns (ret: Error)
      requires Valid() && Odd(id)
      modifies this`streams, this`maxStreamId
      ensures Valid() && Later()
      ensures ret == if old(Admits(id, block)) then NoError
                     else if id in streams && streams[id].state != Open then StreamClosed else ProtocolError
      ensures streams == if ret == NoError && id !in old(streams)
                         then old(streams)[id := Stream(Open, settingsInitialWindowSize, -1, 0, false)]
                         else old(streams)
      ensures maxStreamId == if ret == NoError && id !in old(streams) then id else old(maxStreamId)
    {
      hide Ledger, Ids;
      NoneIdle();
      if id in streams {
        var state := streams[id].state;
        if !block.endStream && state == Open && streamForContinuation == 0 {
          return ProtocolError;
        }
        if state == HalfClosed && streamForContinuation == 0 {
          return StreamClosed;
        }
        if state == Closed {
          return StreamClosed;
        }
      } else {
        if maxStreamId >= id {
          return ProtocolError;
        }
        NewStream(id);
      }
      ret := NoError;
    }

    predicate Admits(id: StreamId, block: Block)
      reads this
    {
      if id in streams then
        && streams[id].state != Closed
        && (streamForContinuation != 0 || (streams[id].state == Open && block.endStream))
      else id > maxStreamId
    }

    /** The end of a header block: it is decoded, and a stream with nothing to come is queued. */
    method Finish(id: StreamId, block: Block, decoded: Decoded) returns (ret: Error)
      requires Valid() && id in streams && (block.endStream ==> streams[id].state == HalfClosed)
      modifies this`streams, this`queued
      ensures Valid() && ret == decoded.error
      ensures var was := old(streams)[id];
              streams == if decoded.contentLength.None? then old(streams)
                         else old(streams)[id := was.(contentLength := decoded.contentLength.value)]
      ensures queued == if ret == NoError && streams[id].state == HalfClosed && streamForContinuation == 0
                        then old(queued) + [id] else old(queued)
    {
      hide Ledger, Ids;
      if decoded.contentLength.Some? {
        Announce(id, decoded.contentLength.value);
      }
      if decoded.error != NoError {
        return decoded.error;
      }
      if (streams[id].state == HalfClosed || block.endStream) && streamForContinuation == 0 {
        queued := queued + [id];
      }
      ret := NoError;
    }

    /** Which headers are accepted: those of a stream above every identity seen so far; those that end an
        open stream; and any that continue unfinished ones on a stream that is not closed. */
    predicate Opens(id: StreamId, len: nat, block: Block)
      reads this
    {
      && id != 0 && len <= settingsMaxFrameSize && block.padLength <= len && block.dependsOn != Some(id)
      && Admits(id, block)
    }

    method NewStream(id: StreamId)
      requires Valid() && Odd(id) && id > maxStreamId
      modifies this`streams, this`maxStreamId
      ensures Valid() && maxStreamId == id
      ensures streams == old(streams)[id := Stream(Open, settingsInitialWindowSize, -1, 0, false)]
    {
      NeverCharged(sent, id);
      NeverGranted(accepted, id);
      maxStreamId := id;
      streams := streams[id := Stream(Idle, settingsInitialWindowSize, -1, 0, false)];
      streams := streams[id := streams[id].(state := Open)];
    }

    method Advance(id: StreamId, block: Block)
      requires Valid() && id in streams
      modifies this`streams, this`streamForContinuation
      ensures Valid() && streamForContinuation == if block.endHeaders then 0 else id
      ensures var was := old(streams)[id];
              streams == old(streams)[id := was.(state := if block.endStream then HalfClosed else was.state)]
    {
      if block.endStream {
        streams := streams[id := streams[id].(state := HalfClosed)];
      }
      if block.endHeaders {
        streamForContinuation := 0;
      } else {
        streamForContinuation := id;
      }
    }

    /** `consumeHeader` of a content-length. */
    method Announce(id: StreamId, contentLength: int)
      requires Valid() && id in streams
      modifies this`streams
      ensures Valid() && streams == old(streams)[id := old(streams)[id].(contentLength := contentLength)]
    {
      streams := streams[id := streams[id].(contentLength := contentLength)];
    }

    /** A DATA frame. With an announced length it is refused while less than all of it has come. */
    method ParseData(id: StreamId, len: nat, endStream: bool, padLength: Option<nat>, created: bool)
      returns (ret: Error)
      requires Valid() && !closed
      modifies this`queued, this`streams
      ensures Valid() && Shifted()
      ensures old(DataAnswered(id, len, endStream, padLength, created, ret))
      ensures ret == NoError ==> PadFits(len, padLength) && Carried(id, len, endStream, padLength)
      ensures queued == if ret == NoError && endStream then old(queued) + [id] else old(queued)
    {
      hide Ledger, Ids;
      NoneIdle();
      if id == 0 {
        return ProtocolError;
      }
      if padLength.Some? && padLength.value >= len {
        return ProtocolError;
      }
      if id in streams {
        var state := streams[id].state;
        if state == Idle {
          return ProtocolError;
        } else if state == HalfClosed || state == Closed {
          return StreamClosed;
        }
      } else {
        return StreamClosed;
      }
      if !streams[id].hasBody && !created {
        return InternalError;
      }
      Consume(id, if padLength.Some? then len - padLength.value else len);
      var stream := streams[id];
      if stream.contentLength != -1
         && ((endStream && stream.contentLength != stream.consumedData) || stream.contentLength > stream.consumedData)
      {
        return ProtocolError;
      }
      if endStream {
        queued := queued + [id];
      }
      ret := NoError;
    }

    method Consume(id: StreamId, n: nat)
      requires Valid() && id in streams
      modifies this`streams
      ensures Valid() && Shifted()
      ensures var was := old(streams)[id];
              streams == old(streams)[id := was.(hasBody := true, consumedData := was.consumedData + n)]
    {
      streams := streams[id := streams[id].(hasBody := true)];
      streams := streams[id := streams[id].(consumedData := streams[id].consumedData + n)];
    }

    /** A request body of any DATA frames, the last of which ends the stream: with an announced length
        it is accepted if and only if the first frame carries the whole body and the others nothing. */
    method ParseBody(id: StreamId, parts: seq<Part>) returns (ret: Error)
      requires Valid() && !closed && parts != [] && id in streams
      requires streams[id].state == Open && streams[id].consumedData == 0
      requires forall p <- parts :: PadFits(p.len, p.padLength)
      modifies this`queued, this`streams
      ensures Valid()
      ensures ret == NoError <==>
                var announced := old(streams)[id].contentLength;
                || announced == -1
                || (Payload(parts[0].len, parts[0].padLength) == announced
                    && forall p <- parts[1..] :: Payload(p.len, p.padLength) == 0)
      ensures queued == if ret == NoError then old(queued) + [id] else old(queued)
    {
      hide Ledger, Ids;
      ghost var announced := streams[id].contentLength;
      ret := NoError;
      OddIds();
      AllAtOnce(announced, parts);
      assert parts[0..] == parts;
      var i := 0;
      while i < |parts| && ret == NoError
        invariant 0 <= i <= |parts| && Valid() && id in streams && id != 0
        invariant ret == NoError ==>
                    && streams[id].state == Open && streams[id].contentLength == announced
                    && (AllAgree(announced, 0, parts) <==> AllAgree(announced, streams[id].consumedData, parts[i..]))
        invariant ret != NoError ==> !AllAgree(announced, 0, parts)
        invariant queued == if ret == NoError && i == |parts| then old(queued) + [id] else old(queued)
        decreases |parts| - i, ret == NoError
      {
        var p := parts[i];
        assert parts[i..][1..] == parts[i + 1..] && p in parts;
        ret := ParseData(id, p.len, i == |parts| - 1, p.padLength, true);
        i := if ret == NoError then i + 1 else i;
      }
    }

    lemma OddIds()
      requires Valid()
      ensures forall id <- streams :: id != 0
    {
    }

    method ParsePriority(id: StreamId, len: nat, dependsOn: StreamId) returns (ret: Error)
      ensures ret == if len != 5 then FrameSizeError else if id == 0 || dependsOn == id then ProtocolError else NoError
    {
      if len != 5 {
        return FrameSizeError;
      } else if id == 0 {
        return ProtocolError;
      }
      if id == dependsOn {
        return ProtocolError;
      }
      ret := NoError;
    }

    method ParseRstStream(id: StreamId, len: nat) returns (ret: Error)
      requires Valid() && !closed
      modifies this`streams
      ensures Valid()
      ensures ret == if id == 0 then ProtocolError else if len != 4 then FrameSizeError
                     else if id in old(streams) then NoError else StreamClosed
      ensures ret != NoError ==> streams == old(streams)
      ensures ret == NoError ==>
                id in old(streams) && streams == old(streams)[id := old(streams)[id].(state := Closed)]
    {
      if id == 0 {
        return ProtocolError;
      } else if len != 4 {
        return FrameSizeError;
      }
      if id in streams {
        if streams[id].state == Idle {
          return ProtocolError;
        }
      } else {
        return StreamClosed;
      }
      streams := streams[id := streams[id].(state := Closed)];
      ret := NoError;
    }

    /** An increment is accepted unless the window would pass 2^31 - 1. */
    method ParseWindowUpdate(id: StreamId, len: nat, increment: nat) returns (ret: Error)
      requires Valid() && !closed
      modifies this`streams, this`windowSize, this`accepted
      ensures Valid() && streams.Keys == old(streams).Keys
      ensures accepted == if ret == NoError then old(accepted) + [Grant(id, increment)] else old(accepted)
      ensures old(IncrementAnswered(id, len, increment, ret))
      ensures ret == NoError && id == 0 ==> windowSize == old(windowSize) + increment && streams == old(streams)
      ensures ret == NoError && id != 0 ==> windowSize == old(windowSize) && Widened(id, increment)
    {
      hide Ids, Ledger;
      NoneIdle();
      if len != 4 {
        return FrameSizeError;
      }
      if increment == 0 {
        return ProtocolError;
      }
      if id != 0 {
        if id in streams {
          if streams[id].state == Idle {
            return ProtocolError;
          }
        } else {
          return StreamClosed;
        }
        var result := streams[id].windowSize + increment;
        if result > MAX_WINDOW {
          Reset(id);
          return FlowControlError;
        }
        GrowStream(id, increment);
      } else {
        var result := windowSize + increment;
        if result > MAX_WINDOW {
          return FlowControlError;
        }
        GrowConnection(increment);
      }
      ret := NoError;
    }

    /** A stream is idle only while its first headers are being read. */
    lemma NoneIdle()
      requires Valid()
      ensures forall id <- streams :: streams[id].state != Idle
    {
    }

    method Reset(id: StreamId)
      requires Valid() && id in streams
      modifies this`streams
      ensures Valid() && streams == old(streams)[id := old(streams)[id].(state := Closed)]
    {
      streams := streams[id := streams[id].(state := Closed)];
    }

    method GrowStream(id: StreamId, increment: nat)
      requires Valid() && id in streams
      modifies this`streams, this`accepted
      ensures Valid() && accepted == old(accepted) + [Grant(id, increment)]
      ensures streams == old(streams)[id := old(streams)[id].(windowSize := old(streams)[id].windowSize + increment)]
    {
      hide Granted, Charged, ChargedAll;
      GrantedAnother(Grant(id, increment));
      streams := streams[id := streams[id].(windowSize := streams[id].windowSize + increment)];
      accepted := accepted + [Grant(id, increment)];
    }

    method GrowConnection(increment: nat)
      requires Valid()
      modifies this`windowSize, this`accepted
      ensures Valid() && accepted == old(accepted) + [Grant(0, increment)] && windowSize == old(windowSize) + increment
    {
      hide Granted, Charged, ChargedAll;
      GrantedAnother(Grant(0, increment));
      assert forall id <- streams :: Odd(id) && id != 0;
      assert forall id <- streams :: Granted(accepted + [Grant(0, increment)], id) == Granted(accepted, id);
      windowSize := windowSize + increment;
      accepted := accepted + [Grant(0, increment)];
    }

    lemma ChargedAnother(s: Sent)
      ensures forall i ::
                Charged(sent + [s], i) == Charged(sent, i) + if i == s.streamId && !s.endStream then s.len else 0
      ensures ChargedAll(sent + [s]) == ChargedAll(sent) + if s.endStream then 0 else s.len
    {
      forall i: StreamId
        ensures Charged(sent + [s], i) == Charged(sent, i) + if i == s.streamId && !s.endStream then s.len else 0
      {
        ChargedMore(sent, s, i);
      }
      ChargedMore(sent, s, s.streamId);
    }

    lemma GrantedAnother(g: Grant)
      ensures forall i ::
                Granted(accepted + [g], i) == Granted(accepted, i) + if i == g.streamId then g.increment else 0
    {
      forall i: StreamId
        ensures Granted(accepted + [g], i) == Granted(accepted, i) + if i == g.streamId then g.increment else 0
      {
        GrantedMore(accepted, g, i);
      }
    }

    /** `processingFinished`: the stream is gone for good. */
    method ProcessingFinished(id: StreamId)
      requires Valid() && id in streams
      modifies this`streams, this`removed
      ensures Valid() && Later() && streams == old(streams) - {id} && removed == old(removed) + {id}
    {
      streams := streams[id := streams[id].(state := Closed)];
      streams := streams - {id};
      removed := removed + {id};
    }

    /** One DATA frame of `H2Stream::doWrite`: as much as the windows and the frame size allow. The
        rest of the data goes with END_STREAM and is not charged, since what is subtracted has been set
        to zero before. */
    method WriteOnce(id: StreamId, remaining: int) returns (left: int)
      requires Valid() && id in streams && remaining > 0
      requires Available(id, 0) != 0
      modifies this`streams, this`windowSize, this`sent
      ensures Valid() && streams.Keys == old(streams).Keys
      ensures var available := old(Available(id, 0));
              var last := available > remaining;
              && left == (if last then 0 else remaining - available)
              && sent == old(sent) + [Sent(id, if last then remaining else available, last)]
              && streams == old(streams)[id := old(streams)[id].(windowSize :=
                              old(streams)[id].windowSize - if last then 0 else available)]
              && windowSize == old(windowSize) - if last then 0 else available
    {
      hide Ids, Ledger;
      left := remaining;
      var available := Min(Min(streams[id].windowSize, windowSize), settingsMaxFrameSize);
      if available > left {
        left := 0;
        SendAndCharge(Sent(id, remaining, true), left);
      } else {
        left := left - available;
        SendAndCharge(Sent(id, available, false), available);
      }
    }

    /** A DATA frame goes out and the windows shrink. */
    method SendAndCharge(s: Sent, charge: int)
      requires Valid() && s.streamId in streams && charge == if s.endStream then 0 else s.len
      modifies this`streams, this`windowSize, this`sent
      ensures Valid() && sent == old(sent) + [s] && windowSize == old(windowSize) - charge
      ensures var was := old(streams)[s.streamId];
              streams == old(streams)[s.streamId := was.(windowSize := was.windowSize - charge)]
    {
      hide Charged, ChargedAll, Granted;
      ChargedAnother(s);
      ghost var was := streams;
      sent := sent + [s];
      windowSize := windowSize - charge;
      streams := streams[s.streamId := streams[s.streamId].(windowSize := streams[s.streamId].windowSize - charge)];
      assert forall i <- streams :: Balanced(was[i], i, settingsInitialWindowSize, accepted, old(sent));
    }

    /** What the windows and the frame size allow, when `charge` of them is given back. */
    function Available(id: StreamId, charge: int): int
      requires id in streams
      reads this`streams, this`windowSize, this`settingsMaxFrameSize
    {
      Min(Min(streams[id].windowSize + charge, windowSize + charge), settingsMaxFrameSize)
    }

    /** The frame just sent ended the stream if and only if more was available than was left; what was
        available then is what is available now and what the frame was charged with. */
    ghost predicate EndedIfRoom(s: Sent)
      requires s.streamId in streams
      reads this`streams, this`windowSize, this`settingsMaxFrameSize
    {
      var available := Available(s.streamId, if s.endStream then 0 else s.len);
      (s.endStream <==> available > s.len) && (!s.endStream ==> available == s.len)
    }

    /** `H2Stream::doWrite`. While a window is empty an inner event loop runs, in which anything may
        happen to the connection; `depth`, arbitrary, bounds how deep such loops nest in this run. The
        run is followed for `waits`, arbitrary too: by then the call has ended, or its stream is gone, or
        it waits once more with an empty window. The frames it sends add up to the data, unless the stream
        was closed meanwhile. The last of them ends the stream if and only if the windows had more room
        than it filled. */
    method DoWrite(id: StreamId, len: nat, waits: nat, depth: nat) returns (ok: bool, ghost own: seq<Sent>)
      requires Valid() && id in streams
      modifies this
      ensures Valid() && Later() && (ok ==> id in streams)
      ensures forall s <- own :: s.streamId == id && s in sent
      ensures forall i :: 0 <= i < |own| - 1 ==> !own[i].endStream
      ensures ok && streams[id].state != Closed ==> Total(own) == len
      ensures ok && streams[id].state != Closed && len > 0 ==> own != [] && EndedIfRoom(own[|own| - 1])
      ensures !ok ==> Total(own) < len && (id in streams ==> Available(id, 0) == 0)
      decreases depth, 1
    {
      hide Ledger, Ids, Total;
      var remaining: int := len;
      var left := waits;
      own := [];
      NothingSent();
      while remaining > 0 && streams[id].state != Closed
        invariant Valid() && Later() && id in streams
        invariant 0 <= remaining && Total(own) + remaining == len
        invariant forall s <- own :: s.streamId == id && s in sent
        invariant forall i :: 0 <= i < |own| - (if remaining == 0 then 1 else 0) ==> !own[i].endStream
        invariant remaining == 0 && len > 0 ==> own != [] && EndedIfRoom(own[|own| - 1])
        decreases left, if Min(streams[id].windowSize, windowSize) < 0 then 1 else 0, remaining
      {
        SizePositive();
        var available := Min(Min(streams[id].windowSize, windowSize), settingsMaxFrameSize);
        if available == 0 {
          if left == 0 {
            return false, own;
          }
          left := left - 1;
          Wait(depth);
          if id !in streams {
            return false, own;
          }
        } else {
          remaining := WriteOnce(id, remaining);
          ghost var s := sent[|sent| - 1];
          TotalOne(own, s);
          own := own + [s];
        }
      }
      ok := true;
    }

    lemma SizePositive()
      requires Valid()
      ensures settingsMaxFrameSize > 0
    {
    }

    /** Any number of frames, writes and finished requests. */
    method Wait(depth: nat)
      requires Valid()
      modifies this
      ensures Valid() && Later()
      decreases depth, 0
    {
      hide Ledger, Ids;
      var steps: nat := *;
      while steps > 0
        invariant Valid() && Later()
      {
        var f: Frame := *;
        var decoded: Decoded := *;
        var created: bool := *;
        var id: StreamId := *;
        var len: nat := *;
        var finishes: bool := *;
        if f.Unknown? && id in streams && finishes {
          ProcessingFinished(id);
        } else if f.Unknown? && id in streams && depth > 0 {
          var waits: nat := *;
          var ok, own := DoWrite(id, len, waits, depth - 1);
        } else if !closed {
          var answer := ParseFrame(f, decoded, created);
        }
        steps := steps - 1;
      }
    }
  }

  /** A window the client shrank below what was already sent makes a frame of negative length: a full
      frame, a new initial window of nothing, and five more bytes. */
  method NegativeFrame() returns (c: Connection, left: int)
    ensures c.sent == [Sent(1, 16384, false), Sent(1, -16384, false)] && left == 5 + 16384
    ensures c.Valid() && 1 in c.streams && c.streams[1].windowSize == 0 && c.windowSize == 65535
  {
    hide Connection.Ids, Connection.Ledger;
    c := FullFrame();
    var shrunk := c.ParseSettings(0, 6, false, [InitialWindowSize(0)]);
    left := c.WriteOnce(1, 5);
  }

  /** A request, and a first frame of its response that fills the frame size. */
  method FullFrame() returns (c: Connection)
    ensures fresh(c) && c.Valid() && !c.closed && c.sent == [Sent(1, 16384, false)]
    ensures 1 in c.streams && c.streams[1].windowSize == c.windowSize == 65535 - 16384
    ensures c.settingsInitialWindowSize == 65535 && c.settingsMaxFrameSize == 16384
  {
    hide Connection.Ids, Connection.Ledger;
    c := new Connection(16384);
    var answer := c.ParseHeaders(1, 10, Block(true, true, 0, None), Decoded(NoError, None));
    var rest := c.WriteOnce(1, 16384);
  }

  /** A body of ten bytes in two frames of five is refused, although it is as long as announced. */
  method TwoHalves() returns (c: Connection, ret: Error)
    ensures c.Valid() && ret != NoError && c.queued == []
  {
    hide Connection.Ids, Connection.Ledger;
    c := new Connection(16384);
    var answer := c.ParseHeaders(1, 10, Block(false, true, 0, None), Decoded(NoError, Some(10)));
    var halves := [Part(5, None), Part(5, None)];
    assert Payload(halves[0].len, halves[0].padLength) == 5;
    ret := c.ParseBody(1, halves);
  }

  // ----- Bodies with an announced length -------------------------------------------------------

  datatype Part = Part(len: nat, padLength: Option<nat>)

  predicate PadFits(len: nat, padLength: Option<nat>) {
    padLength.Some? ==> padLength.value < len
  }

  /** What a DATA frame adds to the body. The octet that holds the padding's length is counted with it. */
  function Payload(len: nat, padLength: Option<nat>): nat
    requires PadFits(len, padLength)
  {
    if padLength.Some? then len - padLength.value else len
  }

  /** The announced length is not missed: reached already, and reached exactly at the end. */
  predicate Agrees(announced: int, consumed: nat, endStream: bool) {
    announced == -1 || (consumed >= announced && (endStream ==> consumed == announced))
  }

  /** Every frame of a body agrees, the last of which ends the stream. */
  predicate AllAgree(announced: int, consumed: nat, parts: seq<Part>)
    requires forall p <- parts :: PadFits(p.len, p.padLength)
    decreases |parts|
  {
    parts != [] ==>
      var now := consumed + Payload(parts[0].len, parts[0].padLength);
      Agrees(announced, now, |parts| == 1) && AllAgree(announced, now, parts[1..])
  }

  lemma {:induction false} NoneMore(announced: int, consumed: nat, parts: seq<Part>)
    requires forall p <- parts :: PadFits(p.len, p.padLength)
    requires announced != -1 && parts != [] && consumed >= announced
    ensures AllAgree(announced, consumed, parts)
            <==> consumed == announced && forall p <- parts :: Payload(p.len, p.padLength) == 0
    decreases |parts|
  {
    var p := parts[0];
    assert p in parts && (forall q <- parts :: q == p || q in parts[1..]);
    if |parts| > 1 {
      NoneMore(announced, consumed + Payload(p.len, p.padLength), parts[1..]);
    }
  }

  lemma AllAtOnce(announced: int, parts: seq<Part>)
    requires parts != [] && forall p <- parts :: PadFits(p.len, p.padLength)
    ensures AllAgree(announced, 0, parts) <==>
              || announced == -1
              || (Payload(parts[0].len, parts[0].padLength) == announced
                  && forall p <- parts[1..] :: Payload(p.len, p.padLength) == 0)
  {
    if announced == -1 {
      NothingAnnounced(0, parts);
    } else if |parts| > 1 {
      var now := Payload(parts[0].len, parts[0].padLength);
      if now >= announced {
        NoneMore(announced, now, parts[1..]);
      }
    }
  }

  lemma {:induction false} NothingAnnounced(consumed: nat, parts: seq<Part>)
    requires forall p <- parts :: PadFits(p.len, p.padLength)
    ensures AllAgree(-1, consumed, parts)
    decreases |parts|
  {
    if parts == [] {
    } else {
      NothingAnnounced(consumed + Payload(parts[0].len, parts[0].padLength), parts[1..]);
    }
  }

  /** A stream after a header block. */
  function AfterBlock(was: Stream, block: Block, decoded: Decoded): Stream {
    was.(state := if block.endStream then HalfClosed else was.state,
         contentLength := if block.endHeaders && decoded.contentLength.Some? then decoded.contentLength.value
                          else was.contentLength)
  }

  /** The data in some frames. */
  function Total(sent: seq<Sent>): int {
    if sent == [] then 0 else Total(sent[..|sent| - 1]) + sent[|sent| - 1].len
  }

  lemma TotalOne(sent: seq<Sent>, s: Sent)
    ensures Total(sent + [s]) == Total(sent) + s.len
  {
    assert (sent + [s])[..|sent|] == sent;
  }

  lemma NothingSent()
    ensures Total([]) == 0
  {
  }

  /** The first setting that is not acceptable says what the frame is refused as. */
  predicate FirstBad(settings: seq<Setting>, ret: Error) {
    exists k :: 0 <= k < |settings| && !Acceptable(settings[k])
             && (forall j :: 0 <= j < k ==> Acceptable(settings[j]))
             && ret == if settings[k].InitialWindowSize? then FlowControlError else ProtocolError
  }

  predicate Acceptable(s: Setting) {
    match s
    case EnablePush(value) => value <= 1
    case InitialWindowSize(value) => value <= MAX_WINDOW
    case MaxFrameSize(value) => 16384 <= value <= 16777215
    case Another(_, _) => true
  }

  /** The initial window size after some settings. */
  function LastWindow(settings: seq<Setting>, before: int): int {
    if settings == [] then before
    else
      var last := settings[|settings| - 1];
      if last.InitialWindowSize? then last.value else LastWindow(settings[..|settings| - 1], before)
  }

  /** The largest frame the client takes after some settings. */
  function LastFrameSize(settings: seq<Setting>, before: int): int {
    if settings == [] then before
    else
      var last := settings[|settings| - 1];
      if last.MaxFrameSize? then last.value else LastFrameSize(settings[..|settings| - 1], before)
  }
}
