/** What a response puts on the wire, whole or in chunks (RFC 9112, section 7.1). */
module ChunkedOutput {
  import opened Basics

  type Bytes = seq<Byte>

  const CR: Byte := 13
  const LF: Byte := 10

  // ----- Chunks --------------------------------------------------------------------------------

  function Digit(n: nat): Byte
    requires n < 16
  {
    if n < 10 then 48 + n else 65 + n - 10
  }

  function DigitValue(c: Byte): Option<nat> {
    if 48 <= c <= 57 then Some(c - 48)
    else if 65 <= c <= 70 then Some(c - 65 + 10)
    else if 97 <= c <= 102 then Some(c - 97 + 10)
    else None
  }

  /** `QByteArray::number(n, 16).toUpper()`. */
  function Hexadecimal(n: nat): (r: Bytes)
    ensures r != []
  {
    if n < 16 then [Digit(n)] else Hexadecimal(n / 16) + [Digit(n % 16)]
  }

  /** A size is written in capitals, without leading zeros. */
  lemma {:induction false} HexadecimalShape(n: nat)
    ensures forall i :: 0 <= i < |Hexadecimal(n)| ==> 48 <= Hexadecimal(n)[i] <= 57 || 65 <= Hexadecimal(n)[i] <= 70
    ensures Hexadecimal(n)[0] == 48 ==> n == 0 && |Hexadecimal(n)| == 1
  {
    if n < 16 {
    } else {
      HexadecimalShape(n / 16);
    }
  }

  /** One chunk: the size, the data, each with its line end. */
  function Chunk(data: Bytes): Bytes {
    Hexadecimal(|data|) + ([CR, LF] + (data + [CR, LF]))
  }

  /** The last chunk, with no trailer. */
  const LAST_CHUNK: Bytes := [48, CR, LF, CR, LF]

  function Chunks(pieces: seq<Bytes>): Bytes {
    if pieces == [] then [] else Chunk(pieces[0]) + Chunks(pieces[1..])
  }

  function Concat(pieces: seq<Bytes>): Bytes {
    if pieces == [] then [] else pieces[0] + Concat(pieces[1..])
  }

  // ----- A receiver ----------------------------------------------------------------------------

  /** The size that starts a chunk: hexadecimal digits up to the line end. */
  function Size(src: Bytes, digits: nat, sofar: nat): Option<(nat, Bytes)> {
    if src == [] then None
    else if DigitValue(src[0]).Some? then Size(src[1..], digits + 1, 16 * sofar + DigitValue(src[0]).value)
    else if digits > 0 && |src| >= 2 && src[0] == CR && src[1] == LF then Some((sofar, src[2..]))
    else None
  }

  lemma {:induction false} SizeShrinks(src: Bytes, digits: nat, sofar: nat)
    ensures Size(src, digits, sofar).Some? ==> |Size(src, digits, sofar).value.1| < |src|
  {
    if src != [] && DigitValue(src[0]).Some? {
      SizeShrinks(src[1..], digits + 1, 16 * sofar + DigitValue(src[0]).value);
    }
  }

  /** The data of a chunked body and the bytes that follow its one last chunk. */
  function Receive(src: Bytes): Option<(Bytes, Bytes)>
    decreases |src|
  {
    SizeShrinks(src, 0, 0);
    match Size(src, 0, 0)
    case None => None
    case Some((n, rest)) =>
      if |rest| < n + 2 || rest[n] != CR || rest[n + 1] != LF then None
      else if n == 0 then Some(([], rest[2..]))
      else
        match Receive(rest[n + 2..])
        case None => None
        case Some((data, after)) => Some((rest[..n] + data, after))
  }

  lemma {:induction false} HexadecimalRead(n: nat, rest: Bytes) returns (digits: nat)
    ensures digits > 0 && Size(Hexadecimal(n) + rest, 0, 0) == Size(rest, digits, n)
  {
    if n < 16 {
      digits := 1;
      DigitRead(n, rest, 0, 0);
    } else {
      digits := HexadecimalRead(n / 16, [Digit(n % 16)] + rest);
      assert Hexadecimal(n) + rest == Hexadecimal(n / 16) + ([Digit(n % 16)] + rest);
      DigitRead(n % 16, rest, digits, n / 16);
      digits := digits + 1;
    }
  }

  lemma DigitRead(n: nat, rest: Bytes, digits: nat, sofar: nat)
    requires n < 16
    ensures Size([Digit(n)] + rest, digits, sofar) == Size(rest, digits + 1, 16 * sofar + n)
  {
    assert ([Digit(n)] + rest)[1..] == rest;
  }

  lemma SizeRead(n: nat, rest: Bytes)
    ensures Size(Hexadecimal(n) + ([CR, LF] + rest), 0, 0) == Some((n, rest))
  {
    var digits := HexadecimalRead(n, [CR, LF] + rest);
    assert ([CR, LF] + rest)[2..] == rest;
  }

  lemma ChunkRead(data: Bytes, rest: Bytes)
    requires data != []
    ensures Receive(Chunk(data) + rest)
            == match Receive(rest) case None => None case Some((more, after)) => Some((data + more, after))
  {
    hide Size;
    var tail := (data + [CR, LF]) + rest;
    SizeRead(|data|, tail);
    assert Chunk(data) + rest == Hexadecimal(|data|) + ([CR, LF] + tail);
    assert tail[..|data|] == data && tail[|data| + 2..] == rest;
    assert tail[|data|] == CR && tail[|data| + 1] == LF;
  }

  /** Chunks and one last chunk are received as the concatenation of the pieces, and nothing of what
      follows is touched. */
  lemma {:induction false} ChunksRead(pieces: seq<Bytes>, rest: Bytes)
    requires forall i :: 0 <= i < |pieces| ==> pieces[i] != []
    ensures Receive(Chunks(pieces) + (LAST_CHUNK + rest)) == Some((Concat(pieces), rest))
  {
    hide Receive, Chunk;
    if pieces == [] {
      LastRead(rest);
      assert Chunks(pieces) + (LAST_CHUNK + rest) == LAST_CHUNK + rest;
    } else {
      ChunksRead(pieces[1..], rest);
      ChunkRead(pieces[0], Chunks(pieces[1..]) + (LAST_CHUNK + rest));
      assert Chunks(pieces) + (LAST_CHUNK + rest) == Chunk(pieces[0]) + (Chunks(pieces[1..]) + (LAST_CHUNK + rest));
    }
  }

  lemma LastRead(rest: Bytes)
    ensures Receive(LAST_CHUNK + rest) == Some(([], rest))
  {
    SizeRead(0, [CR, LF] + rest);
    assert LAST_CHUNK + rest == Hexadecimal(0) + ([CR, LF] + ([CR, LF] + rest));
    assert ([CR, LF] + rest)[2..] == rest;
  }

  // ----- Bytes that pass for a last chunk -----------------------------------------------------

  /** A zero, or several, and two line ends. */
  predicate PassesForLast(b: Bytes) {
    && |b| >= 5 && b[0] == 48
    && (b[1..] == [CR, LF, CR, LF] || PassesForLast(b[1..]))
  }

  lemma {:induction false} SizeGrows(src: Bytes, digits: nat, sofar: nat)
    ensures Size(src, digits, sofar).Some? ==> Size(src, digits, sofar).value.0 >= sofar
  {
    if src == [] {
    } else if DigitValue(src[0]).Some? {
      SizeGrows(src[1..], digits + 1, 16 * sofar + DigitValue(src[0]).value);
    }
  }

  lemma {:induction false} ZeroSize(src: Bytes, digits: nat)
    ensures Size(src, digits, 0) == Some((0, [CR, LF]))
            <==> PassesForLast(src) || (digits > 0 && src == [CR, LF, CR, LF])
  {
    if src == [] {
    } else if DigitValue(src[0]).Some? {
      var v := DigitValue(src[0]).value;
      SizeGrows(src[1..], digits + 1, v);
      if v == 0 {
        ZeroSize(src[1..], digits + 1);
      }
    } else if |src| >= 2 && src[0] == CR && src[1] == LF {
      assert src == [CR, LF] + src[2..];
    }
  }

  lemma {:induction false} SizeMore(src: Bytes, digits: nat, sofar: nat, rest: Bytes)
    ensures Size(src, digits, sofar).Some? ==>
              var (n, tail) := Size(src, digits, sofar).value;
              Size(src + rest, digits, sofar) == Some((n, tail + rest))
  {
    if src == [] {
    } else if DigitValue(src[0]).Some? {
      SizeMore(src[1..], digits + 1, 16 * sofar + DigitValue(src[0]).value, rest);
      assert (src + rest)[1..] == src[1..] + rest;
    } else if |src| >= 2 {
      assert (src + rest)[2..] == src[2..] + rest;
    }
  }

  /** Bytes are received as a body of nothing, whatever follows, if and only if they pass for a last chunk. */
  lemma NothingReceived(b: Bytes)
    ensures (forall rest :: Receive(b + rest) == Some(([], rest))) <==> PassesForLast(b)
  {
    ZeroSize(b, 0);
    if PassesForLast(b) {
      forall rest
        ensures Receive(b + rest) == Some(([], rest))
      {
        SizeMore(b, 0, 0, rest);
        assert ([CR, LF] + rest)[2..] == rest;
      }
    }
    if forall rest :: Receive(b + rest) == Some(([], rest)) {
      assert b + [] == b;
      assert Receive(b + []) == Some(([], []));
      var (n, tail) := Size(b, 0, 0).value;
      if n == 0 {
        assert tail[2..] == [];
        assert tail == [CR, LF];
      }
    }
  }

  // ----- The response --------------------------------------------------------------------------

  datatype Output = HeaderBlock(contentLength: Option<nat>, chunked: bool, close: bool) | Data(bytes: Bytes)

  /** Everything after the headers. */
  function Payload(wire: seq<Output>): Bytes {
    if wire == [] then []
    else
      var last := wire[|wire| - 1];
      Payload(wire[..|wire| - 1]) + if last.Data? then last.bytes else []
  }

  lemma PayloadMore(wire: seq<Output>, o: Output)
    ensures Payload(wire + [o]) == Payload(wire) + if o.Data? then o.bytes else []
  {
    assert (wire + [o])[..|wire|] == wire;
  }

  /** One block of headers, before everything else. */
  ghost predicate HeadersFirst(wire: seq<Output>) {
    wire != [] && wire[0].HeaderBlock? && forall i :: 1 <= i < |wire| ==> wire[i].Data?
  }

  class Response {
    /** `Transfer-Encoding: chunked` and `Connection: Close` among the headers, and the body. */
    var transferChunked: bool
    var connectionClose: bool
    var body: Bytes
    /** The request's status flags. */
    var finalizedHeaders: bool
    var ioWrite: bool
    var chunked: bool
    var chunkedDone: bool
    var finalized: bool
    var wire: seq<Output>
    /** The data written by hand, piece by piece. */
    ghost var pieces: seq<Bytes>

    ghost predicate Valid()
      reads this
    {
      && (if finalizedHeaders then HeadersFirst(wire) else wire == [] && !ioWrite && !finalized)
      && (chunked ==> ioWrite && transferChunked) && (ioWrite ==> body == []) && (!ioWrite ==> pieces == [])
      && (finalizedHeaders && ioWrite ==> wire[0].contentLength == None)
      && (finalizedHeaders ==> wire[0].chunked == transferChunked && wire[0].close == connectionClose)
      && (ioWrite ==> chunked == transferChunked) && connectionClose == (ioWrite && !chunked)
      && !chunkedDone && (forall i :: 0 <= i < |pieces| ==> pieces[i] != [])
      && (!finalized ==> (finalizedHeaders ==> ioWrite)
                         && Payload(wire) == if chunked then Chunks(pieces) else Concat(pieces))
    }

    constructor (transferChunked: bool, body: Bytes)
      ensures Valid() && !finalized && wire == [] && pieces == [] && !finalizedHeaders
      ensures this.transferChunked == transferChunked && this.body == body
    {
      this.transferChunked, this.connectionClose, this.body := transferChunked, false, body;
      finalizedHeaders, ioWrite, chunked, chunkedDone, finalized := false, false, false, false, false;
      wire, pieces := [], [];
    }

    /** `Response::writeData`: the first data sends the headers, and decides whether there are chunks. */
    method WriteData(data: Bytes)
      requires Valid() && !finalized
      modifies this
      ensures Valid() && !finalized && pieces == old(pieces) + if data == [] then [] else [data]
      ensures transferChunked == old(transferChunked) && (data == [] ==> body == old(body))
      ensures ioWrite == (old(ioWrite) || data != [])
      ensures chunked == if old(ioWrite) || data == [] then old(chunked) else transferChunked
    {
      hide Chunks, Concat, Payload, Chunk, HeadersFirst;
      if |data| <= 0 {
        assert pieces + [] == pieces;
        return;
      }
      if !finalizedHeaders {
        Begin();
      }
      More(data);
    }

    method More(data: Bytes)
      requires Valid() && !finalized && finalizedHeaders && data != []
      modifies this`wire, this`chunkedDone, this`pieces
      ensures Valid() && pieces == old(pieces) + [data]
    {
      hide Chunks, Concat, Payload, Chunk, HeadersFirst;
      PiecesMore(pieces, data);
      Write(data);
      pieces := pieces + [data];
    }

    method Begin()
      requires Valid() && !finalized && !finalizedHeaders
      modifies this
      ensures Valid() && !finalized && finalizedHeaders && ioWrite && chunked == transferChunked && pieces == []
      ensures transferChunked == old(transferChunked)
    {
      if transferChunked {
        ioWrite, chunked := true, true;
      } else {
        connectionClose := true;
        ioWrite := true;
      }
      body := [];
      FinalizeHeaders();
    }

    /** `finalizeHeaders`: a length only when nothing was written by hand. */
    method FinalizeHeaders()
      requires wire == []
      modifies this`finalizedHeaders, this`wire
      ensures finalizedHeaders && HeadersFirst(wire) && Payload(wire) == []
      ensures wire == [HeaderBlock(if ioWrite then None else Some(|body|), transferChunked, connectionClose)]
    {
      finalizedHeaders := true;
      PayloadMore(wire, HeaderBlock(if ioWrite then None else Some(|body|), transferChunked, connectionClose));
      assert wire + [HeaderBlock(if ioWrite then None else Some(|body|), transferChunked, connectionClose)]
             == [HeaderBlock(if ioWrite then None else Some(|body|), transferChunked, connectionClose)];
      wire := [HeaderBlock(if ioWrite then None else Some(|body|), transferChunked, connectionClose)];
    }

    /** `EngineRequest::write`. */
    method Write(data: Bytes)
      requires HeadersFirst(wire) && !chunkedDone
      modifies this`wire, this`chunkedDone
      ensures HeadersFirst(wire) && wire[0] == old(wire[0]) && chunkedDone == (chunked && data == [])
      ensures Payload(wire) == old(Payload(wire)) + if chunked then Chunk(data) else data
    {
      if !chunked {
        DoWrite(data);
      } else if !chunkedDone {
        var chunk := Hexadecimal(|data|) + [CR, LF] + data + [CR, LF];
        assert chunk == Chunk(data);
        DoWrite(chunk);
        if |data| == 0 {
          chunkedDone := true;
        }
      }
    }

    method DoWrite(data: Bytes)
      requires HeadersFirst(wire)
      modifies this`wire
      ensures HeadersFirst(wire) && wire[0] == old(wire[0]) && Payload(wire) == old(Payload(wire)) + data
    {
      PayloadMore(wire, Data(data));
      wire := wire + [Data(data)];
    }

    /** `EngineRequest::finalize`: the headers if they were not sent, then the body or the last chunk. */
    method Finalize()
      requires Valid() && !finalized
      modifies this
      ensures Valid() && finalized && pieces == old(pieces) && HeadersFirst(wire)
      ensures old(chunked) ==>
                Payload(wire) == Chunks(pieces) + LAST_CHUNK && wire[0].chunked && wire[0].contentLength == None
      ensures old(ioWrite) && !old(chunked) ==>
                Payload(wire) == Concat(pieces) && !wire[0].chunked && wire[0].contentLength == None
      ensures wire[0].close == (old(ioWrite) && !old(chunked))
      ensures !old(ioWrite) ==> Payload(wire) == old(body) && wire[0].contentLength == Some(|old(body)|)
                                && wire[0].chunked == old(transferChunked)
    {
      hide Chunks, Payload, Chunk;
      if !finalizedHeaders {
        FinalizeHeaders();
      }
      if !chunked {
        assert Concat(pieces) + [] == Concat(pieces) && [] + body == body;
        Write(body);
      } else if !chunkedDone {
        DoWrite(LAST_CHUNK);
      }
      finalized := true;
    }
  }

  lemma {:induction false} PiecesMore(pieces: seq<Bytes>, data: Bytes)
    ensures Chunks(pieces + [data]) == Chunks(pieces) + Chunk(data)
    ensures Concat(pieces + [data]) == Concat(pieces) + data
  {
    hide Chunk;
    if pieces == [] {
      assert pieces + [data] == [data];
      assert Chunk(data) + [] == Chunk(data) && data + [] == data;
    } else {
      PiecesMore(pieces[1..], data);
      assert (pieces + [data])[1..] == pieces[1..] + [data];
    }
  }

  /** Any number of writes and the end: the headers once and first, with no length, then bytes that a
      receiver takes for exactly the data written, whatever follows them. Without chunks the end of the
      connection ends them, which the headers then announce. A response to which nothing
      was written is sent whole, although its headers may announce chunks; a receiver of chunks then
      takes it for what was written if and only if the body passes for a last chunk. */
  method Respond(transferChunked: bool, body: Bytes, writes: seq<Bytes>) returns (r: Response)
    ensures HeadersFirst(r.wire)
    ensures transferChunked && Concat(writes) != [] ==>
              && r.wire[0].chunked && r.wire[0].contentLength == None
              && forall rest :: Receive(Payload(r.wire) + rest) == Some((Concat(writes), rest))
    ensures !transferChunked && Concat(writes) != [] ==>
              Payload(r.wire) == Concat(writes) && !r.wire[0].chunked && r.wire[0].contentLength == None
    ensures r.wire[0].close <==> !transferChunked && Concat(writes) != []
    ensures Concat(writes) == [] ==>
              && Payload(r.wire) == body
              && r.wire[0].contentLength == Some(|body|) && r.wire[0].chunked == transferChunked
    ensures transferChunked ==>
              ((forall rest :: Receive(Payload(r.wire) + rest) == Some((Concat(writes), rest)))
               <==> Concat(writes) != [] || PassesForLast(body))
  {
    hide Chunks, Concat, Payload, Chunk, HeadersFirst, Receive, PassesForLast;
    NothingReceived(body);
    r := WriteAll(transferChunked, body, writes);
    WrittenIsNotEmpty(r.pieces);
    r.Finalize();
    if transferChunked && r.pieces != [] {
      Received(r.pieces);
    }
  }

  /** The response a handler gives that writes nothing: chunks are announced and none is sent. */
  method UnwrittenIsNotReceived() returns (r: Response)
    ensures HeadersFirst(r.wire) && r.wire[0].chunked
    ensures Payload(r.wire) == [] && Receive(Payload(r.wire)) == None
  {
    r := Respond(true, [], []);
  }

  method WriteAll(transferChunked: bool, body: Bytes, writes: seq<Bytes>) returns (r: Response)
    ensures fresh(r) && r.Valid() && !r.finalized && Concat(r.pieces) == Concat(writes)
    ensures r.transferChunked == transferChunked
    ensures if r.pieces == [] then !r.ioWrite && !r.chunked && r.body == body
            else r.ioWrite && r.chunked == transferChunked
  {
    hide Chunks, Concat, Payload, Chunk, HeadersFirst;
    r := new Response(transferChunked, body);
    for i := 0 to |writes|
      invariant fresh(r) && r.Valid() && !r.finalized && r.transferChunked == transferChunked
      invariant Concat(r.pieces) == Concat(writes[..i])
      invariant if r.pieces == [] then !r.ioWrite && !r.chunked && r.body == body
                else r.ioWrite && r.chunked == transferChunked
    {
      NextWrite(r.pieces, writes, i);
      r.WriteData(writes[i]);
    }
    assert writes[..|writes|] == writes;
  }

  lemma NextWrite(pieces: seq<Bytes>, writes: seq<Bytes>, i: nat)
    requires i < |writes| && Concat(pieces) == Concat(writes[..i])
    ensures Concat(pieces + if writes[i] == [] then [] else [writes[i]]) == Concat(writes[..i + 1])
    ensures pieces + [] == pieces
  {
    PiecesMore(pieces, writes[i]);
    PiecesMore(writes[..i], writes[i]);
    assert writes[..i + 1] == writes[..i] + [writes[i]] && pieces + [] == pieces;
  }

  lemma Received(pieces: seq<Bytes>)
    requires forall i :: 0 <= i < |pieces| ==> pieces[i] != []
    ensures forall rest :: Receive((Chunks(pieces) + LAST_CHUNK) + rest) == Some((Concat(pieces), rest))
  {
    forall rest
      ensures Receive((Chunks(pieces) + LAST_CHUNK) + rest) == Some((Concat(pieces), rest))
    {
      ChunksRead(pieces, rest);
      assert (Chunks(pieces) + LAST_CHUNK) + rest == Chunks(pieces) + (LAST_CHUNK + rest);
    }
  }

  lemma WrittenIsNotEmpty(pieces: seq<Bytes>)
    requires forall i :: 0 <= i < |pieces| ==> pieces[i] != []
    ensures Concat(pieces) == [] <==> pieces == []
  {
  }
}
