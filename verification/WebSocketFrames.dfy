/** WebSocket frames: the four phases of the receiver, each seen as one whole step, and what a
    sequence of frames delivers. */
module WebSocketFrames {

  type Bytes = seq<bv8>

  const CONTINUE: bv8 := 0x0
  const TEXT: bv8 := 0x1
  const BINARY: bv8 := 0x2
  const CLOSE: bv8 := 0x8
  const PING: bv8 := 0x9
  const PONG: bv8 := 0xA

  /** What the receiver does for the outside. A violation is answered with close code 1002; a frame
      too big or a continuation of nothing just drops the connection. */
  datatype Event =
    | BinaryFrame(payload: Bytes, fin: bool) | BinaryMessage(payload: Bytes)
    | TextFrame(payload: Bytes, fin: bool) | TextMessage(payload: Bytes)
    | PongSent(payload: Bytes) | PongReceived(payload: Bytes)
    | Closed(payload: Bytes) | Violation | Dropped

  datatype Phase = Headers | Size | Mask | Payload

  datatype Receiver = Receiver(phase: Phase, need: nat, payloadSize: nat, mask: Bytes, payload: Bytes,
                               message: Bytes, finnOpcode: bv8, continueOpcode: bv8, closed: bool, out: seq<Event>)

  const FRESH := Receiver(Headers, 2, 0, [], [], [], 0, 0, false, [])

  // ----- Bytes ---------------------------------------------------------------------------------

  /** The number of big-endian bytes (`net_be16`, `net_be64`). */
  function BigEndian(bytes: Bytes): nat {
    if bytes == [] then 0 else BigEndian(bytes[..|bytes| - 1]) * 256 + bytes[|bytes| - 1] as nat
  }

  /** Masking and unmasking are the same: byte i with mask byte i mod 4. */
  function Masked(bytes: Bytes, mask: Bytes): (r: Bytes)
    requires |mask| == 4
    ensures |r| == |bytes|
  {
    seq(|bytes|, i requires 0 <= i < |bytes| => bytes[i] ^ mask[i % 4])
  }

  // ----- The phases ----------------------------------------------------------------------------

  /** The errors of `websocket_parse_header`. A pong may be longer than 125 bytes. */
  predicate BadHeader(byte1: bv8, byte2: bv8, continueOpcode: bv8) {
    var opcode := byte1 & 0xf;
    var size := byte2 & 0x7f;
    || byte2 & 0x80 == 0
    || ((opcode == PING || opcode == CLOSE) && size > 125)
    || byte1 & 0x70 != 0
    || 3 <= opcode <= 7 || 0xB <= opcode <= 0xF
    || (byte1 & 0x80 == 0 && opcode != TEXT && opcode != BINARY && opcode != CONTINUE)
    || (continueOpcode != 0 && (opcode == TEXT || opcode == BINARY))
  }

  function ParseHeader(r: Receiver, byte1: bv8, byte2: bv8): (r': Receiver)
    ensures r'.closed || Ready(r')
  {
    var opcode := byte1 & 0xf;
    var size := byte2 & 0x7f;
    var r1 := r.(finnOpcode := byte1, payloadSize := size as nat);
    if BadHeader(byte1, byte2, r.continueOpcode) then r1.(closed := true, out := r.out + [Violation])
    else
      var data := opcode == TEXT || opcode == BINARY;
      var r2 := r1.(message := if data then [] else r.message,
                    continueOpcode := if data && byte1 & 0x80 == 0 then opcode else r.continueOpcode);
      if size == 126 then r2.(need := 2, phase := Size)
      else if size == 127 then r2.(need := 8, phase := Size)
      else r2.(need := 4, phase := Mask)
  }

  function ParseSize(r: Receiver, bytes: Bytes, max: nat): (r': Receiver)
    ensures r'.closed || Ready(r')
  {
    var size := BigEndian(bytes);
    if size > max then r.(closed := true, out := r.out + [Dropped])
    else r.(payloadSize := size, need := 4, phase := Mask)
  }

  function ParseMask(r: Receiver, bytes: Bytes): (r': Receiver)
    requires |bytes| == 4
    ensures r'.closed || Ready(r')
  {
    var r1 := r.(mask := bytes, payload := [], phase := Payload, need := r.payloadSize);
    if r.payloadSize == 0 then Complete(r1) else r1
  }

  function ParsePayload(r: Receiver, bytes: Bytes): (r': Receiver)
    requires |r.mask| == 4
    ensures r'.closed || Ready(r')
  {
    Complete(r.(payload := Masked(bytes, r.mask)))
  }

  /** A close frame, or a continuation of nothing, makes `websocket_parse_payload` fail. */
  predicate Stops(r: Receiver) {
    var opcode := r.finnOpcode & 0xf;
    opcode == CLOSE || (opcode == CONTINUE && r.continueOpcode != TEXT && r.continueOpcode != BINARY)
  }

  /** The end of a frame. */
  function Complete(r: Receiver): (r': Receiver)
    ensures r'.phase == Headers && r'.need == 2
  {
    var r1 := r.(need := 2, phase := Headers);
    var opcode := r.finnOpcode & 0xf;
    if opcode == CONTINUE then
      if r.continueOpcode == TEXT then Send(r1, true)
      else if r.continueOpcode == BINARY then Send(r1, false)
      else r1.(closed := true, out := r.out + [Dropped])
    else if opcode == TEXT then Send(r1, true)
    else if opcode == BINARY then Send(r1, false)
    else if opcode == CLOSE then r1.(closed := true, out := r.out + [Closed(r.payload)])
    else if opcode == PING then
      r1.(out := r.out + [PongSent(if |r.payload| > 125 then r.payload[..125] else r.payload)])
    else if opcode == PONG then r1.(out := r.out + [PongReceived(r.payload)])
    else r1
  }

  /** `send_text` and `send_binary`: the frame, and with FIN the message. */
  function Send(r: Receiver, text: bool): Receiver {
    var fin := r.finnOpcode & 0x80 != 0;
    var message := r.message + r.payload;
    var frame := if text then TextFrame(r.payload, fin) else BinaryFrame(r.payload, fin);
    if fin then
      r.(continueOpcode := 0, message := [], payload := [],
         out := r.out + [frame, if text then TextMessage(message) else BinaryMessage(message)])
    else r.(message := message, out := r.out + [frame])
  }

  /** The fields fit each other, a payload perhaps half read. */
  predicate Sound(r: Receiver) {
    && r.need > 0
    && (r.phase == Headers ==> r.need == 2)
    && (r.phase == Size ==> (r.need == 2 && r.payloadSize == 126) || (r.need == 8 && r.payloadSize == 127))
    && (r.phase == Mask ==> r.need == 4)
    && (r.phase == Payload ==> |r.mask| == 4 && |r.payload| + r.need == r.payloadSize)
  }

  /** At the start of a phase. */
  predicate Ready(r: Receiver) {
    Sound(r) && (r.phase == Payload ==> r.payload == [])
  }

  /** One whole phase. */
  function Advance(r: Receiver, bytes: Bytes, max: nat): (r': Receiver)
    requires Ready(r) && |bytes| == r.need
    ensures r'.closed || Ready(r')
  {
    match r.phase
    case Headers => ParseHeader(r, bytes[0], bytes[1])
    case Size => ParseSize(r, bytes, max)
    case Mask => ParseMask(r, bytes)
    case Payload => ParsePayload(r, bytes)
  }

  /** Everything the bytes allow, up to the end of the connection, and the bytes left. */
  function Receive(r: Receiver, bytes: Bytes, max: nat): (Receiver, Bytes)
    requires r.closed || Ready(r)
    decreases |bytes|
  {
    if r.closed || |bytes| < r.need then (r, bytes)
    else Receive(Advance(r, bytes[..r.need], max), bytes[r.need..], max)
  }

  /** Receiving in two pieces is receiving at once. */
  lemma {:induction false} ReceiveMore(r: Receiver, a: Bytes, b: Bytes, max: nat)
    requires r.closed || Ready(r)
    ensures var (r1, rest) := Receive(r, a, max);
            (r1.closed || Ready(r1)) && Receive(r, a + b, max) == Receive(r1, rest + b, max)
    decreases |a|
  {
    if !r.closed && |a| >= r.need {
      var r' := Advance(r, a[..r.need], max);
      assert (a + b)[..r.need] == a[..r.need] && (a + b)[r.need..] == a[r.need..] + b;
      ReceiveMore(r', a[r.need..], b, max);
    }
  }
}
