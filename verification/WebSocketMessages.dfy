/** Frames as a client sends them, and the messages the receiver makes of them. */
module WebSocketMessages {
  import opened Basics
  import opened WebSocketFrames
  import opened ProtocolWebSocket

  datatype Frame = Frame(fin: bool, opcode: bv8, key: Bytes, payload: Bytes)

  /** `createWebsocketHeader`: FIN and opcode, then the length in one, three or nine bytes. */
  function CreateWebsocketHeader(opcode: bv8, len: nat): (header: Bytes)
    requires len < 0x1_0000_0000_0000_0000
    ensures |header| >= 2
  {
    if len < 126 then [0x80 + opcode, ToByte(len)]
    else if len <= 0xffff then [0x80 + opcode, 126] + LengthBytes(len, 2)
    else [0x80 + opcode, 127] + LengthBytes(len, 8)
  }

  /** The lowest n bytes of a length, highest first: `(len >> 8 * i) & 0xff`. */
  function LengthBytes(len: nat, n: nat): (bytes: Bytes)
    ensures |bytes| == n
  {
    if n == 0 then [] else LengthBytes(len / 256, n - 1) + [ToByte(len % 256)]
  }

  function ToByte(n: nat): bv8
    requires n < 256
  {
    n as bv8
  }

  /** A client's frame: that header with the mask bit set, without FIN for a fragment, then the key
      and the masked payload. */
  function EncodeFrame(f: Frame): Bytes
    requires |f.key| == 4 && |f.payload| < 0x1_0000_0000_0000_0000
  {
    var h := CreateWebsocketHeader(f.opcode, |f.payload|);
    [FirstByte(f), h[1] | 0x80] + (h[2..] + (f.key + Masked(f.payload, f.key)))
  }

  function FirstByte(f: Frame): bv8 {
    if f.fin then 0x80 + f.opcode else (0x80 + f.opcode) & 0x7f
  }

  predicate Control(f: Frame) {
    f.opcode == CLOSE || f.opcode == PING || f.opcode == PONG
  }

  /** Frames the receiver takes in (RFC 6455, sections 5.2 to 5.5): known opcodes, whole control frames,
      short ones but for pongs, and no new message inside another. */
  predicate Accepted(continueOpcode: bv8, f: Frame, max: nat) {
    && |f.key| == 4 && |f.payload| < 0x1_0000_0000_0000_0000
    && (Control(f) || f.opcode == CONTINUE || f.opcode == TEXT || f.opcode == BINARY)
    && (Control(f) ==> f.fin) && (f.opcode == PING || f.opcode == CLOSE ==> |f.payload| <= 125)
    && (f.opcode == TEXT || f.opcode == BINARY ==> continueOpcode == 0)
    && (|f.payload| > 125 ==> |f.payload| <= max)
  }

  /** The receiver after the header and the length of a frame. */
  function BeforeKey(r: Receiver, f: Frame): (r': Receiver)
    ensures Ready(r')
  {
    var data := f.opcode == TEXT || f.opcode == BINARY;
    r.(finnOpcode := FirstByte(f), payloadSize := |f.payload|,
       message := if data then [] else r.message,
       continueOpcode := if data && !f.fin then f.opcode else r.continueOpcode,
       phase := Mask, need := 4)
  }

  /** The receiver after one whole frame. */
  function TakeFrame(r: Receiver, f: Frame): (r': Receiver)
    ensures r'.closed || (Ready(r') && r'.phase == Headers)
  {
    Complete(BeforeKey(r, f).(mask := f.key, payload := f.payload, phase := Payload, need := |f.payload|))
  }

  // ----- One frame -----------------------------------------------------------------------------

  lemma FirstByteFacts(f: Frame)
    requires f.opcode <= 0xf
    ensures FirstByte(f) & 0xf == f.opcode && FirstByte(f) & 0x70 == 0
    ensures (FirstByte(f) & 0x80 != 0) <==> f.fin
  {
    var op := f.opcode;
    assert op <= 0xf ==> (0x80 + op) & 0xf == op && (0x80 + op) & 0x70 == 0 && (0x80 + op) & 0x80 != 0;
    assert op <= 0xf ==> ((0x80 + op) & 0x7f) & 0xf == op && ((0x80 + op) & 0x7f) & 0x70 == 0
                         && ((0x80 + op) & 0x7f) & 0x80 == 0;
  }

  lemma MaskBit(b: bv8)
    requires b <= 127
    ensures (b | 0x80) & 0x80 != 0 && (b | 0x80) & 0x7f == b
  {
  }

  lemma {:induction false} MaskTwice(bytes: Bytes, key: Bytes)
    requires |key| == 4
    ensures Masked(Masked(bytes, key), key) == bytes
  {
    forall i | 0 <= i < |bytes|
      ensures Masked(Masked(bytes, key), key)[i] == bytes[i]
    {
      XorTwice(bytes[i], key[i % 4]);
    }
  }

  lemma XorTwice(a: bv8, b: bv8)
    ensures (a ^ b) ^ b == a
  {
  }

  lemma ByteValue(n: nat)
    requires n < 256
    ensures ToByte(n) as nat == n && (n < 128 ==> ToByte(n) <= 127)
  {
    ByteThereAndBack(n);
    if ToByte(n) > 127 {
      AtLeast(ToByte(n));
    }
  }

  lemma AtLeast(b: bv8)
    requires b > 127
    ensures b as nat > 127
  {
  }

  predicate Fits(len: nat, n: nat) {
    if n == 0 then len == 0 else Fits(len / 256, n - 1)
  }

  /** The bytes of a length give the length back. */
  lemma {:induction false} LengthRead(len: nat, n: nat)
    requires Fits(len, n)
    ensures BigEndian(LengthBytes(len, n)) == len
  {
    hide ToByte;
    if n > 0 {
      LengthRead(len / 256, n - 1);
      ByteValue(len % 256);
      var high := LengthBytes(len / 256, n - 1);
      assert (high + [ToByte(len % 256)])[..|high|] == high;
    }
  }

  lemma FitsTwo(len: nat)
    requires len <= 0xffff
    ensures Fits(len, 2)
  {
  }

  lemma FitsEight(len: nat)
    requires len < 0x1_0000_0000_0000_0000
    ensures Fits(len, 8)
  {
    var low4 := len / 256 / 256 / 256 / 256;
    assert low4 < 0x1_0000_0000;
    assert Fits(low4, 4) by {
      assert Fits(low4 / 256 / 256, 2);
    }
    assert Fits(len / 256 / 256, 6);
  }

  lemma SizePart(opcode: bv8, len: nat)
    requires len < 0x1_0000_0000_0000_0000
    ensures var h := CreateWebsocketHeader(opcode, len);
            && h[1] <= 127
            && h[1] as nat == (if len < 126 then len else if len <= 0xffff then 126 else 127)
            && |h[2..]| == (if len < 126 then 0 else if len <= 0xffff then 2 else 8)
            && (len > 125 ==> BigEndian(h[2..]) == len)
  {
    hide ToByte, LengthBytes, BigEndian;
    if len < 126 {
      ByteValue(len);
    } else if len <= 0xffff {
      FitsTwo(len);
      LengthRead(len, 2);
      assert CreateWebsocketHeader(opcode, len)[2..] == LengthBytes(len, 2);
    } else {
      FitsEight(len);
      LengthRead(len, 8);
      assert CreateWebsocketHeader(opcode, len)[2..] == LengthBytes(len, 8);
    }
  }

  lemma Step(r: Receiver, bytes: Bytes, rest: Bytes, max: nat)
    requires !r.closed && Ready(r) && |bytes| == r.need
    ensures Receive(r, bytes + rest, max) == Receive(Advance(r, bytes, max), rest, max)
  {
    assert (bytes + rest)[..r.need] == bytes && (bytes + rest)[r.need..] == rest;
  }

  /** Receiving an encoded frame takes the frame, byte for byte, and no more. */
  lemma ReceiveFrame(r: Receiver, f: Frame, rest: Bytes, max: nat)
    requires !r.closed && r.phase == Headers && r.need == 2 && Accepted(r.continueOpcode, f, max)
    ensures Receive(r, EncodeFrame(f) + rest, max) == Receive(TakeFrame(r, f), rest, max)
  {
    hide Receive, Advance, Complete, Masked, CreateWebsocketHeader, Stops, FirstByte, BadHeader;
    var h := CreateWebsocketHeader(f.opcode, |f.payload|);
    var head, masked := [FirstByte(f), h[1] | 0x80], Masked(f.payload, f.key);
    Regroup(head, h[2..], f.key, masked, rest);
    var r2 := PreludeTaken(r, f, f.key + (masked + rest), max);
    Step(r2, f.key, masked + rest, max);
    KeyAndPayloadTaken(r2, f, masked, rest, max);
  }

  lemma PreludeTaken(r: Receiver, f: Frame, rest: Bytes, max: nat) returns (r2: Receiver)
    requires !r.closed && r.phase == Headers && r.need == 2 && Accepted(r.continueOpcode, f, max)
    ensures r2 == BeforeKey(r, f)
    ensures var h := CreateWebsocketHeader(f.opcode, |f.payload|);
            Receive(r, [FirstByte(f), h[1] | 0x80] + (h[2..] + rest), max) == Receive(r2, rest, max)
  {
    hide Receive, Advance, Complete, Masked, CreateWebsocketHeader, Stops, FirstByte, BadHeader;
    var h := CreateWebsocketHeader(f.opcode, |f.payload|);
    Step(r, [FirstByte(f), h[1] | 0x80], h[2..] + rest, max);
    var r1 := HeaderTaken(r, f, max);
    r2 := SizeTaken(r1, f, rest, max);
  }

  lemma Regroup(head: Bytes, size: Bytes, key: Bytes, masked: Bytes, rest: Bytes)
    ensures (head + (size + (key + masked))) + rest == head + (size + (key + (masked + rest)))
  {
  }

  lemma KeyAndPayloadTaken(r: Receiver, f: Frame, masked: Bytes, rest: Bytes, max: nat)
    requires !r.closed && r.phase == Mask && r.need == 4 && |f.key| == 4
    requires r.payloadSize == |f.payload| && masked == Masked(f.payload, f.key)
    ensures var r3 := Advance(r, f.key, max);
            && (r3.closed || Ready(r3))
            && Receive(r3, masked + rest, max)
               == Receive(Complete(r.(mask := f.key, payload := f.payload, phase := Payload, need := |f.payload|)),
                          rest, max)
  {
    hide Receive, Complete, Masked;
    if f.payload == [] {
      assert masked + rest == rest;
    } else {
      var r3 := Advance(r, f.key, max);
      Step(r3, masked, rest, max);
      MaskTwice(f.payload, f.key);
    }
  }

  lemma HeaderTaken(r: Receiver, f: Frame, max: nat) returns (r1: Receiver)
    requires !r.closed && r.phase == Headers && r.need == 2 && Accepted(r.continueOpcode, f, max)
    ensures var h := CreateWebsocketHeader(f.opcode, |f.payload|);
            var data := f.opcode == TEXT || f.opcode == BINARY;
            && r1 == Advance(r, [FirstByte(f), h[1] | 0x80], max)
            && r1 == r.(finnOpcode := FirstByte(f), payloadSize := h[1] as nat,
                        message := if data then [] else r.message,
                        continueOpcode := if data && !f.fin then f.opcode else r.continueOpcode,
                        need := if |f.payload| < 126 then 4 else if |f.payload| <= 0xffff then 2 else 8,
                        phase := if |f.payload| < 126 then Mask else Size)
  {
    hide CreateWebsocketHeader, FirstByte, BadHeader, ParseHeader;
    var size := CreateWebsocketHeader(f.opcode, |f.payload|)[1];
    AcceptedSize(r.continueOpcode, f, max, size);
    GoodHeader(f, size, r.continueOpcode);
    HeaderParsed(r, FirstByte(f), size | 0x80);
    HeaderBytes(f, size);
    assert [FirstByte(f), size | 0x80][0] == FirstByte(f) && [FirstByte(f), size | 0x80][1] == size | 0x80;
    r1 := ParseHeader(r, FirstByte(f), size | 0x80);
  }

  /** What the length says of the size byte. */
  lemma AcceptedSize(continueOpcode: bv8, f: Frame, max: nat, size: bv8)
    requires Accepted(continueOpcode, f, max) && size == CreateWebsocketHeader(f.opcode, |f.payload|)[1]
    ensures size <= 127 && (Control(f) ==> f.fin) && (f.opcode == PING || f.opcode == CLOSE ==> size <= 125)
    ensures f.opcode <= 0xf
    ensures Control(f) || f.opcode == CONTINUE || f.opcode == TEXT || f.opcode == BINARY
    ensures f.opcode == TEXT || f.opcode == BINARY ==> continueOpcode == 0
    ensures (size == 126 <==> 125 < |f.payload| <= 0xffff) && (size == 127 <==> |f.payload| > 0xffff)
  {
    hide CreateWebsocketHeader;
    SizePart(f.opcode, |f.payload|);
  }

  lemma HeaderBytes(f: Frame, size: bv8)
    requires f.opcode <= 0xf && size <= 127
    ensures FirstByte(f) & 0xf == f.opcode && (FirstByte(f) & 0x80 == 0 <==> !f.fin)
    ensures (size | 0x80) & 0x7f == size
  {
    hide FirstByte;
    FirstByteFacts(f);
    MaskBit(size);
  }

  /** The fields after a good header. */
  lemma HeaderParsed(r: Receiver, byte1: bv8, byte2: bv8)
    requires !BadHeader(byte1, byte2, r.continueOpcode)
    ensures var opcode, size := byte1 & 0xf, byte2 & 0x7f;
            var data := opcode == TEXT || opcode == BINARY;
            ParseHeader(r, byte1, byte2)
            == r.(finnOpcode := byte1, payloadSize := size as nat,
                  message := if data then [] else r.message,
                  continueOpcode := if data && byte1 & 0x80 == 0 then opcode else r.continueOpcode,
                  need := if size == 126 then 2 else if size == 127 then 8 else 4,
                  phase := if size == 126 || size == 127 then Size else Mask)
  {
    hide BadHeader;
  }

  lemma GoodHeader(f: Frame, size: bv8, continueOpcode: bv8)
    requires size <= 127 && (Control(f) ==> f.fin) && (f.opcode == PING || f.opcode == CLOSE ==> size <= 125)
    requires f.opcode <= 0xf
    requires Control(f) || f.opcode == CONTINUE || f.opcode == TEXT || f.opcode == BINARY
    requires f.opcode == TEXT || f.opcode == BINARY ==> continueOpcode == 0
    ensures !BadHeader(FirstByte(f), size | 0x80, continueOpcode)
  {
    hide FirstByte;
    FirstByteFacts(f);
    MaskBit(size);
  }

  lemma SizeTaken(r1: Receiver, f: Frame, rest: Bytes, max: nat) returns (r2: Receiver)
    requires !r1.closed && |f.payload| < 0x1_0000_0000_0000_0000 && (|f.payload| > 125 ==> |f.payload| <= max)
    requires var h := CreateWebsocketHeader(f.opcode, |f.payload|);
             && r1.payloadSize == h[1] as nat
             && r1.need == (if |f.payload| < 126 then 4 else if |f.payload| <= 0xffff then 2 else 8)
             && r1.phase == if |f.payload| < 126 then Mask else Size
    ensures r2 == r1.(payloadSize := |f.payload|, need := 4, phase := Mask)
    ensures Ready(r1) && Ready(r2)
    ensures Receive(r1, CreateWebsocketHeader(f.opcode, |f.payload|)[2..] + rest, max) == Receive(r2, rest, max)
  {
    var h := CreateWebsocketHeader(f.opcode, |f.payload|);
    SizePart(f.opcode, |f.payload|);
    if |f.payload| < 126 {
      r2 := r1;
      assert h[2..] + rest == rest;
    } else {
      r2 := ParseSize(r1, h[2..], max);
      Step(r1, h[2..], rest, max);
    }
  }

  // ----- Whole messages ------------------------------------------------------------------------

  /** A part of a message and the pings and pongs sent right after it. */
  datatype Fragment = Fragment(key: Bytes, payload: Bytes, after: seq<Frame>)

  datatype Message = Message(text: bool, first: Fragment, rest: seq<Fragment>)

  predicate GoodFragment(p: Fragment, max: nat) {
    && |p.key| == 4 && |p.payload| < 0x1_0000_0000_0000_0000
    && (|p.payload| > 125 ==> |p.payload| <= max)
    && Controls(p.after)
  }

  /** A control frame that may come between fragments (RFC 6455, section 5.5). */
  predicate Between(f: Frame) {
    (f.opcode == PING || f.opcode == PONG) && f.fin && |f.key| == 4 && |f.payload| <= 125
  }

  predicate Controls(fs: seq<Frame>) {
    forall i :: 0 <= i < |fs| ==> Between(fs[i])
  }

  predicate GoodFragments(ps: seq<Fragment>, max: nat) {
    forall i :: 0 <= i < |ps| ==> GoodFragment(ps[i], max)
  }

  predicate GoodMessages(ms: seq<Message>, max: nat) {
    forall i :: 0 <= i < |ms| ==> GoodMessage(ms[i], max)
  }

  predicate GoodMessage(m: Message, max: nat) {
    GoodFragment(m.first, max) && GoodFragments(m.rest, max)
  }

  function Opcode(text: bool): bv8 {
    if text then TEXT else BINARY
  }

  function EncodeControls(fs: seq<Frame>): Bytes
    requires Controls(fs)
  {
    if fs == [] then [] else EncodeFrame(fs[0]) + EncodeControls(fs[1..])
  }

  function Joined(ps: seq<Fragment>): Bytes {
    if ps == [] then [] else ps[0].payload + Joined(ps[1..])
  }

  /** What a message should deliver. */
  function Whole(text: bool, content: Bytes): Event {
    if text then TextMessage(content) else BinaryMessage(content)
  }

  function Delivered(ms: seq<Message>): seq<Event> {
    if ms == [] then []
    else [Whole(ms[0].text, ms[0].first.payload + Joined(ms[0].rest))] + Delivered(ms[1..])
  }

  predicate IsMessage(e: Event) {
    e.TextMessage? || e.BinaryMessage?
  }

  /** Between frames, with a message of the given kind open or none. */
  predicate Idle(r: Receiver, continueOpcode: bv8) {
    !r.closed && r.phase == Headers && r.need == 2 && r.continueOpcode == continueOpcode
  }

  /** What a control frame is answered with, or reported as. */
  function Answer(f: Frame): Event {
    if f.opcode == PING then PongSent(f.payload) else PongReceived(f.payload)
  }

  /** What a data frame is reported as. */
  function FrameEvent(text: bool, payload: Bytes, fin: bool): Event {
    if text then TextFrame(payload, fin) else BinaryFrame(payload, fin)
  }

  /** A ping is answered with its own payload; the open message is left alone. */
  lemma ControlChangesNothing(r: Receiver, f: Frame, op: bv8)
    requires Idle(r, op) && Between(f)
    ensures var r' := TakeFrame(r, f);
            Idle(r', op) && r'.message == r.message && r'.out == r.out + [Answer(f)]
  {
    FirstByteFacts(f);
    hide FirstByte;
    var done := BeforeKey(r, f).(mask := f.key, payload := f.payload, phase := Payload, need := |f.payload|);
    assert Complete(done).out == r.out + [Answer(f)];
  }

  /** A data frame opens a message, extends it, or completes it. */
  lemma DataTaken(r: Receiver, f: Frame, text: bool)
    requires f.opcode == CONTINUE || f.opcode == Opcode(text)
    requires Idle(r, if f.opcode == CONTINUE then Opcode(text) else 0)
    ensures var r' := TakeFrame(r, f);
            var content := (if f.opcode == CONTINUE then r.message else []) + f.payload;
            && r'.out == r.out + ([FrameEvent(text, f.payload, f.fin)] + if f.fin then [Whole(text, content)] else [])
            && if f.fin then Idle(r', 0) else Idle(r', Opcode(text)) && r'.message == content
  {
    FirstByteFacts(f);
    hide FirstByte;
    var frame := FrameEvent(text, f.payload, f.fin);
    var content := (if f.opcode == CONTINUE then r.message else []) + f.payload;
    assert [frame] + [] == [frame] && [frame] + [Whole(text, content)] == [frame, Whole(text, content)];
  }

  /** A close frame ends the connection, and so does a fragment of nothing. */
  lemma LastFrame(r: Receiver, f: Frame, op: bv8)
    requires Idle(r, op) && |f.key| == 4 && (f.opcode == CLOSE || (f.opcode == CONTINUE && op == 0))
    ensures var r' := TakeFrame(r, f);
            r'.closed && r'.out == r.out + [if f.opcode == CLOSE then Closed(f.payload) else Dropped]
  {
    FirstByteFacts(f);
    hide FirstByte;
  }

  // ----- Frames that are refused ---------------------------------------------------------------

  /** The first byte of a frame from its fields. */
  function FieldByte(fin: bool, reserved: bv8, opcode: bv8): bv8 {
    (if fin then 0x80 else 0) | (reserved << 4) | opcode
  }

  function SizeByte(masked: bool, size: bv8): bv8 {
    (if masked then 0x80 else 0) | size
  }

  /** Which headers end the connection, with a close code: those of frames that are not masked, with reserved
      bits or an unknown opcode, of long pings and close frames, of control frames in pieces, and of a new
      message inside another. Any other header is taken. */
  lemma HeaderRefused(r: Receiver, fin: bool, reserved: bv8, opcode: bv8, masked: bool, size: bv8)
    requires reserved <= 7 && opcode <= 15 && size <= 127
    ensures var r' := ParseHeader(r, FieldByte(fin, reserved, opcode), SizeByte(masked, size));
            if !masked || reserved != 0 || !(opcode <= 2 || 8 <= opcode <= 10)
               || (size > 125 && (opcode == PING || opcode == CLOSE)) || (!fin && opcode > 2)
               || (r.continueOpcode != 0 && (opcode == TEXT || opcode == BINARY))
            then r'.closed && r'.out == r.out + [Violation]
            else r'.closed == r.closed && r'.out == r.out
  {
    hide BadHeader;
    Fields(fin, reserved, opcode, masked, size);
    BadFields(fin, reserved, opcode, masked, size, r.continueOpcode);
  }

  lemma Fields(fin: bool, reserved: bv8, opcode: bv8, masked: bool, size: bv8)
    requires reserved <= 7 && opcode <= 15 && size <= 127
    ensures var b := FieldByte(fin, reserved, opcode);
            && b & 0xf == opcode && (b & 0x70 == 0 <==> reserved == 0) && (b & 0x80 == 0 <==> !fin)
    ensures var b := SizeByte(masked, size); b & 0x7f == size && (b & 0x80 == 0 <==> !masked)
  {
  }

  lemma BadFields(fin: bool, reserved: bv8, opcode: bv8, masked: bool, size: bv8, continueOpcode: bv8)
    requires reserved <= 7 && opcode <= 15 && size <= 127
    ensures BadHeader(FieldByte(fin, reserved, opcode), SizeByte(masked, size), continueOpcode) <==>
              || !masked || reserved != 0 || !(opcode <= 2 || 8 <= opcode <= 10)
              || (size > 125 && (opcode == PING || opcode == CLOSE)) || (!fin && opcode > 2)
              || (continueOpcode != 0 && (opcode == TEXT || opcode == BINARY))
  {
    Fields(fin, reserved, opcode, masked, size);
    hide FieldByte, SizeByte;
  }

  /** The examples of RFC 6455, section 5.7. */
  lemma KnownHeaders()
    ensures CreateWebsocketHeader(TEXT, 5) == [0x81, 0x05]
    ensures CreateWebsocketHeader(BINARY, 256) == [0x82, 0x7e, 0x01, 0x00]
    ensures CreateWebsocketHeader(BINARY, 65536) == [0x82, 0x7f, 0, 0, 0, 0, 0, 1, 0, 0]
  {
    hide LengthBytes;
    NextLength(0, 1, 0);
    NextLength(1, 0, 1);
    for n := 0 to 5
      invariant LengthBytes(0, n) == seq(n, i => 0 as bv8)
    {
      NextLength(0, 0, n);
    }
    NextLength(0, 1, 5);
    NextLength(1, 0, 6);
    NextLength(256, 0, 7);
  }

  lemma NextLength(high: nat, low: nat, n: nat)
    requires low < 256
    ensures LengthBytes(high, 0) == []
    ensures LengthBytes(256 * high + low, n + 1) == LengthBytes(high, n) + [low as bv8]
  {
  }

  lemma KnownFrame()
    ensures EncodeFrame(Frame(true, TEXT, [0x37, 0xfa, 0x21, 0x3d], [0x48, 0x65, 0x6c, 0x6c, 0x6f]))
            == [0x81, 0x85, 0x37, 0xfa, 0x21, 0x3d, 0x7f, 0x9f, 0x4d, 0x51, 0x58]
  {
    hide CreateWebsocketHeader, Masked;
    KnownHeaders();
    KnownMask();
    assert CreateWebsocketHeader(TEXT, 5)[2..] == [];
  }

  lemma KnownMask()
    ensures Masked([0x48, 0x65, 0x6c, 0x6c, 0x6f], [0x37, 0xfa, 0x21, 0x3d]) == [0x7f, 0x9f, 0x4d, 0x51, 0x58]
  {
  }

  /** A frame whose length is given apart and is above the limit drops the connection. */
  lemma TooBigRefused(r: Receiver, bytes: Bytes, max: nat)
    requires !r.closed && Ready(r) && r.phase == Size && |bytes| == r.need
    ensures var r' := Advance(r, bytes, max);
            if BigEndian(bytes) > max then r'.closed && r'.out == r.out + [Dropped]
            else !r'.closed && r'.out == r.out && r'.phase == Mask && r'.payloadSize == BigEndian(bytes)
  {
  }

  // ----- Whole conversations -------------------------------------------------------------------

  function ControlEvents(fs: seq<Frame>): seq<Event> {
    if fs == [] then [] else [Answer(fs[0])] + ControlEvents(fs[1..])
  }

  /** What the fragments of a message bring forth when some of it is there already. */
  function FragmentEvents(text: bool, sofar: Bytes, ps: seq<Fragment>): seq<Event>
    decreases |ps|
  {
    if ps == [] then []
    else
      var content := sofar + ps[0].payload;
      [FrameEvent(text, ps[0].payload, |ps| == 1)] + (if |ps| == 1 then [Whole(text, content)] else [])
      + (ControlEvents(ps[0].after) + FragmentEvents(text, content, ps[1..]))
  }

  function ConversationEvents(ms: seq<Message>): seq<Event> {
    if ms == [] then []
    else FragmentEvents(ms[0].text, [], [ms[0].first] + ms[0].rest) + ConversationEvents(ms[1..])
  }

  lemma {:induction false} ControlsTaken(r: Receiver, fs: seq<Frame>, op: bv8, rest: Bytes, max: nat)
    returns (r': Receiver)
    requires Idle(r, op) && Controls(fs)
    ensures Idle(r', op) && r'.message == r.message && r'.out == r.out + ControlEvents(fs)
    ensures Receive(r, EncodeControls(fs) + rest, max) == Receive(r', rest, max)
    decreases |fs|
  {
    hide Receive, TakeFrame, EncodeFrame, ControlEvents;
    FirstAnswer(r.out, fs);
    if fs == [] {
      r' := r;
      assert EncodeControls(fs) + rest == rest;
    } else {
      Join2(EncodeFrame(fs[0]), EncodeControls(fs[1..]), rest);
      ReceiveFrame(r, fs[0], EncodeControls(fs[1..]) + rest, max);
      ControlChangesNothing(r, fs[0], op);
      r' := ControlsTaken(TakeFrame(r, fs[0]), fs[1..], op, rest, max);
    }
  }

  lemma FirstAnswer(out: seq<Event>, fs: seq<Frame>)
    ensures out + ControlEvents(fs)
            == if fs == [] then out else (out + [Answer(fs[0])]) + ControlEvents(fs[1..])
  {
  }

  lemma Join2(a: Bytes, b: Bytes, c: Bytes)
    ensures (a + b) + c == a + (b + c)
  {
  }

  /** The first fragment of a message or a further one. */
  function FragmentFrame(text: bool, first: bool, p: Fragment, last: bool): Frame {
    Frame(last, if first then Opcode(text) else CONTINUE, p.key, p.payload)
  }

  function EncodeFrom(text: bool, first: bool, ps: seq<Fragment>, max: nat): Bytes
    requires GoodFragments(ps, max)
  {
    if ps == [] then []
    else EncodeFrame(FragmentFrame(text, first, ps[0], |ps| == 1))
         + (EncodeControls(ps[0].after) + EncodeFrom(text, false, ps[1..], max))
  }

  lemma {:induction false} FragmentsTaken(r: Receiver, text: bool, first: bool, ps: seq<Fragment>, rest: Bytes,
                                          max: nat)
    returns (r': Receiver)
    requires Idle(r, if first then 0 else Opcode(text)) && ps != [] && GoodFragments(ps, max)
    ensures Idle(r', 0) && r'.out == r.out + FragmentEvents(text, if first then [] else r.message, ps)
    ensures Receive(r, EncodeFrom(text, first, ps, max) + rest, max) == Receive(r', rest, max)
    decreases |ps|
  {
    hide Receive, TakeFrame, EncodeFrame, EncodeControls, Whole, ControlEvents, FrameEvent, FragmentEvents, EncodeFrom;
    var f := FragmentFrame(text, first, ps[0], |ps| == 1);
    var more, sofar := EncodeFrom(text, false, ps[1..], max), if first then [] else r.message;
    FirstFragment(text, first, ps, rest, max);
    ReceiveFrame(r, f, EncodeControls(ps[0].after) + (more + rest), max);
    DataTaken(r, f, text);
    var r1 := ControlsTaken(TakeFrame(r, f), ps[0].after, if f.fin then 0 else Opcode(text), more + rest, max);
    FirstEvents(text, sofar, ps, r.out);
    if f.fin {
      assert ps[1..] == [];
      NoFragments(text, rest, max, r1.out);
      r' := r1;
    } else {
      r' := FragmentsTaken(r1, text, false, ps[1..], rest, max);
    }
  }

  lemma FirstFragment(text: bool, first: bool, ps: seq<Fragment>, rest: Bytes, max: nat)
    requires ps != [] && GoodFragments(ps, max)
    ensures EncodeFrom(text, first, ps, max) + rest
            == EncodeFrame(FragmentFrame(text, first, ps[0], |ps| == 1))
               + (EncodeControls(ps[0].after) + (EncodeFrom(text, false, ps[1..], max) + rest))
  {
    hide EncodeFrame, EncodeControls;
    Join3(EncodeFrame(FragmentFrame(text, first, ps[0], |ps| == 1)), EncodeControls(ps[0].after),
          EncodeFrom(text, false, ps[1..], max), rest);
  }

  lemma NoFragments(text: bool, rest: Bytes, max: nat, out: seq<Event>)
    ensures EncodeFrom(text, false, [], max) + rest == rest && out + [] == out
  {
  }

  lemma FirstEvents(text: bool, sofar: Bytes, ps: seq<Fragment>, out: seq<Event>)
    requires ps != []
    ensures var content := sofar + ps[0].payload;
            out + FragmentEvents(text, sofar, ps)
            == ((out + ([FrameEvent(text, ps[0].payload, |ps| == 1)]
                        + if |ps| == 1 then [Whole(text, content)] else []))
                + ControlEvents(ps[0].after))
               + (if |ps| == 1 then [] else FragmentEvents(text, content, ps[1..]))
  {
    hide FrameEvent, Whole, ControlEvents;
    var content := sofar + ps[0].payload;
    var head := [FrameEvent(text, ps[0].payload, |ps| == 1)] + if |ps| == 1 then [Whole(text, content)] else [];
    var tail := if |ps| == 1 then [] else FragmentEvents(text, content, ps[1..]);
    assert FragmentEvents(text, sofar, ps) == head + (ControlEvents(ps[0].after) + tail);
    hide FragmentEvents;
    ShiftTwice(out, head, ControlEvents(ps[0].after), tail);
  }

  lemma ShiftTwice(a: seq<Event>, b: seq<Event>, c: seq<Event>, d: seq<Event>)
    ensures a + (b + (c + d)) == ((a + b) + c) + d
  {
  }

  lemma Join3(a: Bytes, b: Bytes, c: Bytes, d: Bytes)
    ensures (a + (b + c)) + d == a + (b + (c + d))
  {
  }

  function EncodeMessages(ms: seq<Message>, max: nat): Bytes
    requires GoodMessages(ms, max)
  {
    if ms == [] then []
    else
      GoodPieces(ms[0], max);
      EncodeFrom(ms[0].text, true, [ms[0].first] + ms[0].rest, max) + EncodeMessages(ms[1..], max)
  }

  lemma GoodPieces(m: Message, max: nat)
    requires GoodMessage(m, max)
    ensures GoodFragments([m.first] + m.rest, max)
  {
  }

  /** Messages cut into any fragments, with pings and pongs before, between and after them, bring forth just
      this, in this order: each ping its pong, each fragment its frame, and after the last fragment of each
      message the concatenation. */
  lemma MessagesTaken(r: Receiver, lead: seq<Frame>, ms: seq<Message>, rest: Bytes, max: nat) returns (r': Receiver)
    requires Idle(r, 0) && Controls(lead) && GoodMessages(ms, max)
    ensures Idle(r', 0) && r'.out == r.out + (ControlEvents(lead) + ConversationEvents(ms))
    ensures Receive(r, EncodeControls(lead) + (EncodeMessages(ms, max) + rest), max) == Receive(r', rest, max)
  {
    hide Receive, EncodeControls, EncodeMessages, ControlEvents, ConversationEvents;
    var r1 := ControlsTaken(r, lead, 0, EncodeMessages(ms, max) + rest, max);
    r' := MessagesInTurn(r1, ms, rest, max);
    Shift(r.out, ControlEvents(lead), ConversationEvents(ms));
  }

  lemma Shift(a: seq<Event>, b: seq<Event>, c: seq<Event>)
    ensures (a + b) + c == a + (b + c)
  {
  }

  lemma {:induction false} MessagesInTurn(r: Receiver, ms: seq<Message>, rest: Bytes, max: nat) returns (r': Receiver)
    requires Idle(r, 0) && GoodMessages(ms, max)
    ensures Idle(r', 0) && r'.out == r.out + ConversationEvents(ms)
    ensures Receive(r, EncodeMessages(ms, max) + rest, max) == Receive(r', rest, max)
    decreases |ms|
  {
    hide Receive, FragmentEvents, EncodeFrom, EncodeMessages, ConversationEvents;
    if ms == [] {
      r' := r;
      NoMessages(rest, r.out, max);
    } else {
      GoodPieces(ms[0], max);
      FirstMessage(ms, rest, r.out, max);
      var more := EncodeMessages(ms[1..], max) + rest;
      var r1 := FragmentsTaken(r, ms[0].text, true, [ms[0].first] + ms[0].rest, more, max);
      r' := MessagesInTurn(r1, ms[1..], rest, max);
    }
  }

  lemma NoMessages(rest: Bytes, out: seq<Event>, max: nat)
    ensures EncodeMessages([], max) + rest == rest && out + ConversationEvents([]) == out
  {
  }

  lemma FirstMessage(ms: seq<Message>, rest: Bytes, out: seq<Event>, max: nat)
    requires ms != [] && GoodMessages(ms, max) && GoodFragments([ms[0].first] + ms[0].rest, max)
    ensures EncodeMessages(ms, max) + rest
            == EncodeFrom(ms[0].text, true, [ms[0].first] + ms[0].rest, max) + (EncodeMessages(ms[1..], max) + rest)
    ensures out + ConversationEvents(ms)
            == (out + FragmentEvents(ms[0].text, [], [ms[0].first] + ms[0].rest)) + ConversationEvents(ms[1..])
  {
    hide EncodeFrom, FragmentEvents, GoodMessages, GoodFragments, ConversationEvents;
    FirstMessageEvents(ms, out);
  }

  lemma FirstMessageEvents(ms: seq<Message>, out: seq<Event>)
    requires ms != []
    ensures out + ConversationEvents(ms)
            == (out + FragmentEvents(ms[0].text, [], [ms[0].first] + ms[0].rest)) + ConversationEvents(ms[1..])
  {
    hide FragmentEvents;
  }

  // ----- What is in it -------------------------------------------------------------------------

  predicate IsPong(e: Event) {
    e.PongSent?
  }

  /** The events of one kind, in order. */
  function Only(events: seq<Event>, kind: Event -> bool): seq<Event> {
    if events == [] then [] else (if kind(events[0]) then [events[0]] else []) + Only(events[1..], kind)
  }

  lemma {:induction false} OnlyConcat(a: seq<Event>, b: seq<Event>, kind: Event -> bool)
    ensures Only(a + b, kind) == Only(a, kind) + Only(b, kind)
  {
    hide Only;
    OnlyFirst(a, kind);
    OnlyFirst(a + b, kind);
    if a == [] {
      assert a + b == b && [] + Only(b, kind) == Only(b, kind);
    } else {
      assert (a + b)[1..] == a[1..] + b && (a + b)[0] == a[0];
      OnlyConcat(a[1..], b, kind);
    }
  }

  lemma OnlyFirst(a: seq<Event>, kind: Event -> bool)
    ensures Only(a, kind)
            == if a == [] then [] else (if kind(a[0]) then [a[0]] else []) + Only(a[1..], kind)
  {
  }

  lemma OnlyOne(e: Event, kind: Event -> bool)
    ensures Only([e], kind) == if kind(e) then [e] else []
  {
    assert [e][1..] == [];
  }

  /** The pings among the control frames of a conversation, in order. */
  function Pings(fs: seq<Frame>): seq<Frame> {
    if fs == [] then [] else (if fs[0].opcode == PING then [fs[0]] else []) + Pings(fs[1..])
  }

  function Afters(ps: seq<Fragment>): seq<Frame> {
    if ps == [] then [] else ps[0].after + Afters(ps[1..])
  }

  function AllAfters(ms: seq<Message>): seq<Frame> {
    if ms == [] then [] else Afters([ms[0].first] + ms[0].rest) + AllAfters(ms[1..])
  }

  function PongsFor(pings: seq<Frame>): seq<Event> {
    seq(|pings|, i requires 0 <= i < |pings| => PongSent(pings[i].payload))
  }

  lemma {:induction false} PingsConcat(a: seq<Frame>, b: seq<Frame>)
    ensures Pings(a + b) == Pings(a) + Pings(b)
  {
    if a == [] {
      assert a + b == b;
    } else {
      assert (a + b)[1..] == a[1..] + b;
      PingsConcat(a[1..], b);
    }
  }

  lemma PongsConcat(a: seq<Frame>, b: seq<Frame>)
    ensures PongsFor(a + b) == PongsFor(a) + PongsFor(b)
  {
  }

  lemma {:induction false} ControlsHold(fs: seq<Frame>)
    requires Controls(fs)
    ensures Only(ControlEvents(fs), IsPong) == PongsFor(Pings(fs)) && Only(ControlEvents(fs), IsMessage) == []
  {
    if fs == [] {
    } else {
      ControlsHold(fs[1..]);
      OnlyConcat([Answer(fs[0])], ControlEvents(fs[1..]), IsPong);
      OnlyConcat([Answer(fs[0])], ControlEvents(fs[1..]), IsMessage);
      OnlyOne(Answer(fs[0]), IsPong);
      OnlyOne(Answer(fs[0]), IsMessage);
      PongsConcat(if fs[0].opcode == PING then [fs[0]] else [], Pings(fs[1..]));
    }
  }

  lemma {:induction false} FragmentsHold(text: bool, sofar: Bytes, ps: seq<Fragment>, max: nat)
    requires ps != [] && GoodFragments(ps, max)
    ensures Only(FragmentEvents(text, sofar, ps), IsPong) == PongsFor(Pings(Afters(ps)))
    ensures Only(FragmentEvents(text, sofar, ps), IsMessage) == [Whole(text, sofar + Joined(ps))]
    decreases |ps|
  {
    hide Only, ControlEvents, Pings, PongsFor;
    var p, content := ps[0], sofar + ps[0].payload;
    var frame := FrameEvent(text, p.payload, |ps| == 1);
    var head := [frame] + if |ps| == 1 then [Whole(text, content)] else [];
    var tail := FragmentEvents(text, content, ps[1..]);
    ControlsHold(p.after);
    PingsConcat(p.after, Afters(ps[1..]));
    PongsConcat(Pings(p.after), Pings(Afters(ps[1..])));
    HeadHolds(text, p.payload, content, |ps| == 1);
    EventsConcat(head, ControlEvents(p.after), tail);
    Join2(sofar, p.payload, Joined(ps[1..]));
    if |ps| > 1 {
      FragmentsHold(text, content, ps[1..], max);
    } else {
      NothingHolds();
      assert Joined(ps) == p.payload + [] && p.payload + [] == p.payload;
    }
  }

  lemma NothingHolds()
    ensures Only([], IsPong) == [] && Only([], IsMessage) == [] && PongsFor(Pings([])) == []
  {
  }

  lemma HeadHolds(text: bool, payload: Bytes, content: Bytes, fin: bool)
    ensures var head := [FrameEvent(text, payload, fin)] + if fin then [Whole(text, content)] else [];
            Only(head, IsPong) == [] && Only(head, IsMessage) == if fin then [Whole(text, content)] else []
  {
    var frame := FrameEvent(text, payload, fin);
    OnlyConcat([frame], if fin then [Whole(text, content)] else [], IsPong);
    OnlyConcat([frame], if fin then [Whole(text, content)] else [], IsMessage);
    OnlyOne(frame, IsPong);
    OnlyOne(frame, IsMessage);
    OnlyOne(Whole(text, content), IsPong);
    OnlyOne(Whole(text, content), IsMessage);
  }

  lemma EventsConcat(a: seq<Event>, b: seq<Event>, c: seq<Event>)
    ensures Only(a + (b + c), IsPong) == Only(a, IsPong) + (Only(b, IsPong) + Only(c, IsPong))
    ensures Only(a + (b + c), IsMessage) == Only(a, IsMessage) + (Only(b, IsMessage) + Only(c, IsMessage))
  {
    OnlyConcat(a, b + c, IsPong);
    OnlyConcat(b, c, IsPong);
    OnlyConcat(a, b + c, IsMessage);
    OnlyConcat(b, c, IsMessage);
  }

  /** Of all that a conversation brings forth the messages are the concatenations, in order, and the pongs
      sent are the payloads of the pings, in order. */
  lemma {:induction false} ConversationHolds(ms: seq<Message>, max: nat)
    requires GoodMessages(ms, max)
    ensures Only(ConversationEvents(ms), IsMessage) == Delivered(ms)
    ensures Only(ConversationEvents(ms), IsPong) == PongsFor(Pings(AllAfters(ms)))
    decreases |ms|
  {
    hide Only, Pings, PongsFor, FragmentEvents, Afters, Whole;
    if ms == [] {
      NothingHolds();
    } else {
      var ps := [ms[0].first] + ms[0].rest;
      GoodPieces(ms[0], max);
      FragmentsHold(ms[0].text, [], ps, max);
      ConversationHolds(ms[1..], max);
      PingsConcat(Afters(ps), AllAfters(ms[1..]));
      PongsConcat(Pings(Afters(ps)), Pings(AllAfters(ms[1..])));
      OnlyConcat(FragmentEvents(ms[0].text, [], ps), ConversationEvents(ms[1..]), IsPong);
      OnlyConcat(FragmentEvents(ms[0].text, [], ps), ConversationEvents(ms[1..]), IsMessage);
      assert ps[1..] == ms[0].rest && [] + Joined(ps) == Joined(ps);
    }
  }

  lemma {:induction false} OutOnlyGrows(r: Receiver, bytes: Bytes, max: nat)
    requires r.closed || Ready(r)
    ensures r.out <= Receive(r, bytes, max).0.out
    decreases |bytes|
  {
    hide Advance;
    if !r.closed && |bytes| >= r.need {
      var r1 := Advance(r, bytes[..r.need], max);
      OutOnlyGrows(r1, bytes[r.need..], max);
      PhaseOutGrows(r, bytes[..r.need], max);
    }
  }

  lemma PhaseOutGrows(r: Receiver, bytes: Bytes, max: nat)
    requires Ready(r) && |bytes| == r.need
    ensures r.out <= Advance(r, bytes, max).out
  {
    hide BigEndian, Masked, Complete, ParseHeader;
    match r.phase
    case Headers => HeaderOutGrows(r, bytes[0], bytes[1]);
    case Size =>
    case Mask =>
      var r1 := r.(mask := bytes, payload := [], phase := Payload, need := r.payloadSize);
      CompleteFacts(r1);
    case Payload => CompleteFacts(r.(payload := Masked(bytes, r.mask)));
  }

  lemma HeaderOutGrows(r: Receiver, byte1: bv8, byte2: bv8)
    ensures r.out <= ParseHeader(r, byte1, byte2).out
  {
    hide BadHeader;
  }

  /** However the bytes of the messages, and of control frames anywhere, were cut into arrivals, and
      whatever followed them, this came of them first; when nothing followed, nothing else did. */
  lemma DeliveredHoweverCut(c: WebSocket, lead: seq<Frame>, ms: seq<Message>, rest: Bytes)
    requires c.Valid() && Controls(lead) && GoodMessages(ms, c.maxSize)
    requires c.received == EncodeControls(lead) + (EncodeMessages(ms, c.maxSize) + rest)
    ensures ControlEvents(lead) + ConversationEvents(ms) <= c.state.out
    ensures rest == [] ==> c.state.out == ControlEvents(lead) + ConversationEvents(ms) && !c.state.closed
  {
    hide Advance, ConversationEvents, ControlEvents, EncodeMessages, EncodeControls;
    var r := MessagesTaken(FRESH, lead, ms, rest, c.maxSize);
    assert FRESH.out + (ControlEvents(lead) + ConversationEvents(ms)) == ControlEvents(lead) + ConversationEvents(ms);
    OutOnlyGrows(r, rest, c.maxSize);
  }
}
