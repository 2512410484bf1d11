/** The receiver as it runs: called whenever bytes have arrived, it reads them through one buffer and
    takes a payload in pieces. */
module ProtocolWebSocket {
  import opened Basics
  import opened WebSocketFrames

  /** The fields while a payload may be half read: `taken` are its raw bytes so far. */
  ghost predicate Agrees(whole: Receiver, state: Receiver, taken: Bytes) {
    if whole.phase == Payload then
      && |taken| < whole.need && |whole.mask| == 4
      && state == whole.(need := whole.need - |taken|, payload := Masked(taken, whole.mask))
    else taken == [] && state == whole
  }

  /** Nothing more can be done with the bytes at hand. */
  predicate Waits(r: Receiver, inbox: Bytes) {
    if r.phase == Payload then inbox == [] else |inbox| < r.need
  }

  /** The connection has ended on a frame without payload, whose result `parse` does not look at. */
  predicate EndedEmpty(r: Receiver) {
    && r.closed && r.payloadSize == 0 && r.out != []
    && (r.out[|r.out| - 1] == Closed([]) || r.out[|r.out| - 1] == Dropped)
  }

  class WebSocket {
    const maxSize: nat
    const postBuffer: array<bv8>

    /** Bytes that have arrived and not been read. */
    var inbox: Bytes
    var state: Receiver

    /** Every byte that ever arrived, and the raw bytes read of the current payload. */
    ghost var received: Bytes
    ghost var taken: Bytes

    constructor (maxSize: nat, postBufferSize: nat)
      requires postBufferSize >= 8
      ensures Valid() && received == [] && fresh(postBuffer)
      ensures this.maxSize == maxSize && postBuffer.Length == postBufferSize
    {
      this.maxSize := maxSize;
      postBuffer := new bv8[postBufferSize];
      inbox, state, received, taken := [], FRESH, [], [];
    }

    /** The receiver of whole phases, after everything that has arrived. */
    ghost function Whole(): (Receiver, Bytes)
      reads this
    {
      Receive(FRESH, received, maxSize)
    }

    /** The state is that of the receiver of whole phases, but for the payload being read; also at the end of
        the connection, unless that ended on a frame without payload, after which more may be emitted. */
    ghost predicate Valid()
      reads this
    {
      && postBuffer.Length >= 8
      && if Whole().0.closed then Done(Whole())
         else
           && !state.closed
           && Agrees(Whole().0, state, taken)
           && Whole().1 == taken + inbox
           && Waits(state, inbox) && Sound(state)
           && (Whole().0.phase == Payload ==> Whole().0.payload == [])
    }

    /** The end that the receiver of whole phases has come to. */
    ghost predicate Done(goal: (Receiver, Bytes))
      reads this
    {
      state.closed && goal.0.closed && goal.0.out <= state.out && (EndedEmpty(goal.0) || state == goal.0)
    }

    /** More bytes arrive, and the receiver is called. */
    method Arrive(bytes: Bytes)
      requires Valid() && !state.closed
      modifies this, postBuffer
      ensures Valid() && received == old(received) + bytes
    {
      hide Receive, Agrees, Waits;
      ReceiveMore(FRESH, received, bytes, maxSize);
      assert (taken + inbox) + bytes == taken + (inbox + bytes);
      ghost var goal := Receive(Whole().0, Whole().1 + bytes, maxSize);
      ghost var base := Whole().0;
      received := received + bytes;
      inbox := inbox + bytes;
      Parse(base, goal);
    }

    /** `parse`: phase after phase while the bytes last. The result of a payload without bytes is not
        looked at, so after an empty close frame the loop goes on. */
    method Parse(ghost base: Receiver, ghost goal: (Receiver, Bytes))
      requires postBuffer.Length >= 8 && !state.closed && !base.closed && Ready(base)
      requires Agrees(base, state, taken) && Sound(state)
      requires base.phase == Payload ==> base.payload == []
      requires goal == Receive(base, taken + inbox, maxSize)
      modifies this`inbox, this`state, this`taken, postBuffer
      ensures if goal.0.closed then Done(goal)
              else !state.closed && Agrees(goal.0, state, taken) && goal.1 == taken + inbox && Waits(state, inbox)
                   && Sound(state) && (goal.0.phase == Payload ==> goal.0.payload == [])
    {
      ghost var whole := base;
      while inbox != [] && state.need > 0 && (|inbox| >= state.need || state.phase == Payload)
        invariant Sound(state)
        invariant Tracked(whole, goal)
        decreases |inbox|
      {
        var more;
        if state.phase == Payload {
          whole, more := PayloadTurn(whole, goal);
        } else {
          whole, more := FixedTurn(whole, goal);
        }
        if !more {
          return;
        }
      }
      if !state.closed {
        Halt(whole, goal);
      }
    }

    /** Still in step with the receiver of whole phases, or past its end. */
    ghost predicate Tracked(whole: Receiver, goal: (Receiver, Bytes))
      reads this
    {
      if state.closed then Done(goal) && EndedEmpty(goal.0) else OnTrack(whole, goal)
    }

    /** The header, the extended size and the mask, each read at once. */
    method FixedTurn(ghost whole: Receiver, ghost goal: (Receiver, Bytes)) returns (ghost whole': Receiver, more: bool)
      requires postBuffer.Length >= 8 && Sound(state) && Tracked(whole, goal)
      requires state.phase != Payload && |inbox| >= state.need
      modifies this`inbox, this`state, postBuffer
      ensures |inbox| < |old(inbox)|
      ensures if more then Sound(state) && Tracked(whole', goal) else Done(goal)
    {
      var len := Min(state.need, postBuffer.Length);
      ghost var bytes := inbox[..len];
      FixedFacts(state, bytes, maxSize);
      hide Receive, FixedPhase, Advance, Ready, Stops, Complete;
      whole' := whole;
      if !state.closed {
        NoneTaken(inbox);
        ReceiveStep(whole, inbox);
        whole' := Advance(whole, bytes, maxSize);
        NoneTaken(inbox[len..]);
        ReceiveClosed(whole', inbox[len..]);
      }
      Read(len);
      var r := FixedPhase(state, postBuffer[..len], maxSize);
      state, more := r.0, r.1;
    }

    /** As much of the payload as there is, unmasked in the buffer. */
    method PayloadTurn(ghost whole: Receiver, ghost goal: (Receiver, Bytes))
      returns (ghost whole': Receiver, more: bool)
      requires postBuffer.Length >= 8 && Sound(state) && Tracked(whole, goal)
      requires state.phase == Payload && inbox != []
      modifies this`inbox, this`state, this`taken, postBuffer
      ensures |inbox| < |old(inbox)|
      ensures if more then Sound(state) && Tracked(whole', goal) else Done(goal)
    {
      hide Receive, Advance, Stops, Complete, Masked, Unmasked;
      var len := Min(Min(state.need, postBuffer.Length), |inbox|);
      ghost var chunk := inbox[..len];
      whole', more := whole, true;
      if !state.closed {
        MaskedInPieces(taken, chunk, whole.mask);
        Rejoin(taken, inbox, len);
      }
      Read(len);
      Unmask(len);
      state := state.(payload := state.payload + postBuffer[..len]);
      if |state.payload| < state.payloadSize {
        state := state.(need := state.need - len);
        taken := taken + chunk;
      } else {
        CompleteFacts(state);
        if !state.closed {
          whole' := LastPiece(whole, chunk, goal);
        }
        more := !Stops(state);
        state := Complete(state);
        taken := [];
        NoneTaken(inbox);
      }
    }

    /** The last piece of a payload completes the phase. */
    lemma LastPiece(whole: Receiver, chunk: Bytes, goal: (Receiver, Bytes)) returns (whole': Receiver)
      requires !whole.closed && Ready(whole) && whole.phase == Payload && |taken + chunk| == whole.need
      requires state == whole.(need := state.need, payload := Masked(taken + chunk, whole.mask))
      requires goal == Receive(whole, (taken + chunk) + inbox, maxSize)
      ensures whole' == Complete(state)
      ensures whole'.closed ==> goal == (whole', inbox)
      ensures !whole'.closed ==> Ready(whole') && goal == Receive(whole', inbox, maxSize)
    {
      var all := (taken + chunk) + inbox;
      assert all[..whole.need] == taken + chunk && all[whole.need..] == inbox;
      whole' := Advance(whole, taken + chunk, maxSize);
    }

    lemma Rejoin(a: Bytes, b: Bytes, len: nat)
      requires len <= |b|
      ensures a + b == (a + b[..len]) + b[len..]
    {
    }

    lemma ReceiveStep(r: Receiver, bytes: Bytes)
      requires !r.closed && Ready(r) && |bytes| >= r.need
      ensures Receive(r, bytes, maxSize) == Receive(Advance(r, bytes[..r.need], maxSize), bytes[r.need..], maxSize)
    {
    }

    lemma ReceiveClosed(r: Receiver, bytes: Bytes)
      requires r.closed || Ready(r)
      ensures r.closed ==> Receive(r, bytes, maxSize) == (r, bytes)
    {
    }

    lemma NoneTaken(bytes: Bytes)
      ensures [] + bytes == bytes
    {
    }

    ghost predicate OnTrack(whole: Receiver, goal: (Receiver, Bytes))
      reads this
    {
      && !whole.closed && Ready(whole)
      && Agrees(whole, state, taken)
      && goal == Receive(whole, taken + inbox, maxSize)
    }

    lemma Halt(whole: Receiver, goal: (Receiver, Bytes))
      requires OnTrack(whole, goal) && Waits(state, inbox)
      ensures goal == (whole, taken + inbox)
    {
    }

    method Read(len: nat)
      requires len <= postBuffer.Length && len <= |inbox|
      modifies this`inbox, postBuffer
      ensures postBuffer[..len] == old(inbox)[..len] && inbox == old(inbox)[len..]
    {
      forall k | 0 <= k < len {
        postBuffer[k] := inbox[k];
      }
      assert postBuffer[..len] == inbox[..len];
      inbox := inbox[len..];
    }

    /** Unmasking in place, from where the payload stands. */
    method Unmask(len: nat)
      requires len <= postBuffer.Length && |state.mask| == 4
      modifies postBuffer
      ensures postBuffer[..len] == Unmasked(old(postBuffer[..len]), state.mask, |state.payload|)
    {
      hide Unmasked, UnmaskedByte;
      var maskIx := |state.payload|;
      ghost var raw, mask := postBuffer[..len], state.mask;
      for i := 0 to len
        invariant maskIx == |state.payload| + i
        invariant forall k :: 0 <= k < i ==> postBuffer[k] == UnmaskedByte(raw[k], mask, |state.payload| + k)
        invariant forall k :: i <= k < len ==> postBuffer[k] == raw[k]
      {
        OneUnmasked(raw[i], mask, maskIx);
        postBuffer[i] := postBuffer[i] ^ state.mask[maskIx % 4];
        maskIx := maskIx + 1;
      }
      UnmaskedIs(postBuffer[..len], raw, mask, |state.payload|);
    }
  }

  /** The phases read at once; the flag is the result `parse` looks at. */
  function FixedPhase(r: Receiver, bytes: Bytes, max: nat): (Receiver, bool)
    requires Sound(r) && r.phase != Payload && |bytes| == r.need
  {
    match r.phase
    case Headers => (ParseHeader(r, bytes[0], bytes[1]), !BadHeader(bytes[0], bytes[1], r.continueOpcode))
    case Size => (ParseSize(r, bytes, max), BigEndian(bytes) <= max)
    case Mask => (ParseMask(r, bytes), true)
  }

  lemma FixedFacts(r: Receiver, bytes: Bytes, max: nat)
    requires Sound(r) && r.phase != Payload && |bytes| == r.need
    ensures var (r', more) := FixedPhase(r, bytes, max);
            && r.out <= r'.out && (r.closed ==> r'.closed)
            && (if more then Sound(r') && (r'.closed && !r.closed ==> EndedEmpty(r')) else r'.closed)
            && (!r.closed ==> Ready(r) && r' == Advance(r, bytes, max))
            && (!r'.closed ==> Agrees(r', r', []) && (r'.phase == Payload ==> r'.payload == []))
  {
    hide BadHeader, BigEndian, Masked, Complete, ParseHeader;
    match r.phase
    case Headers => HeaderFacts(r, bytes[0], bytes[1]);
    case Size =>
    case Mask => CompleteFacts(r.(mask := bytes, payload := [], phase := Payload, need := r.payloadSize));
  }

  lemma HeaderFacts(r: Receiver, byte1: bv8, byte2: bv8)
    requires Sound(r) && r.phase == Headers
    ensures var r' := ParseHeader(r, byte1, byte2);
            && r.out <= r'.out && (r.closed ==> r'.closed)
            && (if BadHeader(byte1, byte2, r.continueOpcode) then r'.closed
                else Sound(r') && r'.phase != Payload && r'.closed == r.closed)
  {
    hide BadHeader;
  }

  lemma CompleteFacts(r: Receiver)
    ensures var r' := Complete(r);
            && r.out <= r'.out && (r.closed ==> r'.closed)
            && (Stops(r) ==> r'.closed) && (r'.closed && !r.closed ==> Stops(r)) && Sound(r') && r'.phase == Headers
            && (r'.closed && !r.closed && r.payload == [] && r.payloadSize == 0 ==> EndedEmpty(r'))
  {
  }

  function Unmasked(bytes: Bytes, mask: Bytes, from: nat): (r: Bytes)
    requires |mask| == 4
    ensures |r| == |bytes|
  {
    seq(|bytes|, i requires 0 <= i < |bytes| => UnmaskedByte(bytes[i], mask, from + i))
  }

  function UnmaskedByte(b: bv8, mask: Bytes, ix: nat): bv8
    requires |mask| == 4
  {
    b ^ mask[ix % 4]
  }

  lemma OneUnmasked(b: bv8, mask: Bytes, ix: nat)
    requires |mask| == 4
    ensures UnmaskedByte(b, mask, ix) == b ^ mask[ix % 4]
  {
  }

  lemma UnmaskedIs(done: Bytes, raw: Bytes, mask: Bytes, from: nat)
    requires |mask| == 4 && |done| == |raw|
    requires forall k :: 0 <= k < |raw| ==> done[k] == UnmaskedByte(raw[k], mask, from + k)
    ensures done == Unmasked(raw, mask, from)
  {
  }

  lemma MaskedInPieces(a: Bytes, b: Bytes, mask: Bytes)
    requires |mask| == 4
    ensures Masked(a + b, mask) == Masked(a, mask) + Unmasked(b, mask, |a|)
  {
  }
}
