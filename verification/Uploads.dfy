/** The uploads of a request: parsing its body, and reading an upload as a window on it. */
module Uploads {
  import opened Basics
  import opened Multipart
  import opened MultipartParser
  import opened MultipartRoundTrip

  /** `MultiPartFormDataParser::parse` once the boundary is known. The buffer is at least 1024 bytes
      whatever is asked for; the uploads of an encoded list of parts carry exactly those parts. */
  method Parse(body: string, boundary: string, bufferSize: nat) returns (uploads: seq<Upload>)
    requires Boundary(boundary) && |boundary| <= Max(1024, bufferSize)
    requires At(body, boundary, 0) && Delimited(FindBoundary, body, boundary, 0, "")
    ensures uploads == Resume(FindBoundary, body, boundary, 0, "", [], 0)
    ensures forall parts, tail :: body == Encode(parts, boundary, tail) && BreaksOff(tail)
                                  && (forall i :: 0 <= i < |parts| ==> PlainPart(parts[i], boundary))
              ==> |uploads| == |parts| && forall i :: 0 <= i < |parts| ==> Carries(uploads[i], body, parts[i])
  {
    var size := if bufferSize < 1024 then 1024 else bufferSize;
    var buffer := new char[size];
    uploads := Execute(buffer, body, boundary);
    forall parts, tail | body == Encode(parts, boundary, tail) && BreaksOff(tail)
                         && (forall i :: 0 <= i < |parts| ==> PlainPart(parts[i], boundary))
      ensures |uploads| == |parts| && forall i :: 0 <= i < |parts| ==> Carries(uploads[i], body, parts[i])
    {
      EncodeParses(boundary, parts, tail);
    }
  }

  /** The body as a random-access device. */
  class Device {
    const bytes: string
    var pos: nat

    constructor (bytes: string)
      ensures this.bytes == bytes && pos == 0
    {
      this.bytes, pos := bytes, 0;
    }

    method Seek(pos: nat)
      modifies this
      ensures this.pos == pos
    {
      this.pos := pos;
    }

    method Read(maxlen: nat) returns (data: string)
      modifies this
      ensures data == if old(pos) >= |bytes| then ""
                      else bytes[old(pos)..Min(old(pos) + maxlen, |bytes|)]
      ensures pos == old(pos) + |data|
    {
      data := if pos >= |bytes| then "" else bytes[pos..Min(pos + maxlen, |bytes|)];
      pos := pos + |data|;
    }
  }

  /** An upload: a window on the body with its own position. */
  class UploadFile {
    const device: Device
    const startOffset: nat
    const endOffset: nat
    var pos: int

    ghost predicate Valid()
      reads this
    {
      startOffset <= endOffset <= |device.bytes| && 0 <= pos <= endOffset - startOffset
    }

    function Content(): string
      requires startOffset <= endOffset <= |device.bytes|
    {
      device.bytes[startOffset..endOffset]
    }

    constructor (device: Device, u: Upload)
      requires 0 <= u.startOffset <= u.endOffset <= |device.bytes|
      ensures Valid() && pos == 0 && this.device == device
      ensures startOffset == u.startOffset && endOffset == u.endOffset
      ensures Content() == device.bytes[u.startOffset..u.endOffset]
    {
      this.device, startOffset, endOffset, pos := device, u.startOffset, u.endOffset, 0;
    }

    function Size(): int {
      endOffset - startOffset
    }

    /** A seek is refused past the end only; before the start it leaves the window. */
    method Seek(to: int) returns (ok: bool)
      requires Valid()
      modifies this`pos
      ensures ok == (to <= |Content()|) && pos == if ok then to else old(pos)
      ensures Valid() <==> !ok || to >= 0
    {
      ok := to <= Size();
      if ok {
        pos := to;
      }
    }

    /** Reads from the window and leaves the device where it was. From a position before the window,
        which a seek may have left, it reads what stands before the upload in the body. */
    method ReadData(maxlen: nat) returns (data: string)
      requires startOffset <= endOffset <= |device.bytes|
      requires 0 <= startOffset + pos && pos <= endOffset - startOffset
      modifies this`pos, device
      ensures device.pos == old(device.pos)
      ensures pos == old(pos) + |data| && |data| == Min(|Content()| - old(pos), maxlen)
      ensures data == device.bytes[startOffset + old(pos)..startOffset + pos]
      ensures old(Valid()) ==> Valid() && data == Content()[old(pos)..pos]
    {
      if pos >= 0 {
        Slice(device.bytes, startOffset, endOffset, pos, pos + Min(Size() - pos, maxlen));
      }
      var posOrig := device.pos;
      device.Seek(startOffset + pos);
      data := device.Read(Min(Size() - pos, maxlen));
      device.Seek(posOrig);
      pos := pos + |data|;
    }
  }

  /** After a seek before the start, a read yields bytes of the body that are not the upload's. */
  method ReadBeforeStart() returns (ok: bool, data: string)
    ensures ok && data == "ab"
  {
    var device := new Device("abcd");
    var upload := new UploadFile(device, Upload([], 2, 4));
    ok := upload.Seek(-2);
    data := upload.ReadData(2);
    assert "abcd"[0..2] == "ab";
  }

  lemma Slice(bytes: string, start: nat, end: nat, i: nat, j: nat)
    requires start <= end <= |bytes| && i <= j <= end - start
    ensures bytes[start..end][i..j] == bytes[start + i..start + j]
  {
    var a, b := bytes[start..end][i..j], bytes[start + i..start + j];
    forall k | 0 <= k < j - i
      ensures a[k] == b[k]
    {
      assert bytes[start..end][i + k] == bytes[start + i + k];
    }
  }

  function Sum(sizes: seq<nat>): nat {
    if sizes == [] then 0 else Sum(sizes[..|sizes| - 1]) + sizes[|sizes| - 1]
  }

  /** Reading an upload in any pieces yields its slice of the body, as far as they reach. */
  method ReadInPieces(u: UploadFile, sizes: seq<nat>) returns (data: string)
    requires u.Valid() && u.pos == 0
    modifies u, u.device
    ensures data == u.Content()[..Min(|u.Content()|, Sum(sizes))]
    ensures u.device.pos == old(u.device.pos)
  {
    data := "";
    for i := 0 to |sizes|
      invariant u.Valid() && u.device.pos == old(u.device.pos)
      invariant u.pos == Min(|u.Content()|, Sum(sizes[..i])) && data == u.Content()[..u.pos]
    {
      assert sizes[..i + 1][..i] == sizes[..i];
      var piece := u.ReadData(sizes[i]);
      data := data + piece;
    }
    assert sizes[..|sizes|] == sizes;
  }
}
