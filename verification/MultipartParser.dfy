/** The parser as it runs: a fixed buffer, refilled behind what is kept of the last read. */
module MultipartParser {
  import opened Basics
  import opened Multipart

  /** The buffer holds the body's bytes from `off` on. */
  ghost predicate Holds(bytes: string, body: string, off: int, len: nat) {
    && len <= |bytes| && 0 <= off && off + len <= |body|
    && bytes[..len] == body[off..off + len]
  }

  /** The local variables of the parser that outlive a buffer. */
  datatype Parser = Parser(state: State, headerLine: string, headers: Headers, startOffset: int, ret: seq<Upload>)

  /** The parser stands at position `p` with the rest of its goal ahead. */
  ghost predicate OnTrack(all: seq<Upload>, ps: Parser, body: string, b: string, p: nat)
    requires b != ""
  {
    Reading(all, ps.ret, ps.state, body, b, p, ps.headerLine, ps.headers, ps.startOffset)
  }

  const START := Parser(FindBoundary, "", [], 0, [])

  /** `findBoundary`: how far to move, and the state, for the bytes from `i` up to `len`. */
  method SearchBoundary(buffer: array<char>, i: nat, len: nat, boundary: string, state: State)
    returns (moved: nat, state': State)
    requires i <= len <= buffer.Length && boundary != ""
    ensures var r := Find(buffer[i..len], boundary, 0);
            if r != -1 then state' == EndBoundaryCR && moved == r + |boundary| - 1
            else state' == state && moved == len - i
  {
    var r := Find(buffer[i..len], boundary, 0);
    if r != -1 {
      return r + |boundary| - 1, EndBoundaryCR;
    }
    return len - i, state;
  }

  /** The `StartHeaders` turn: the end of the headers, or as much of a line as the buffer holds. */
  method HeaderTurn(buffer: array<char>, i: nat, len: nat, ps: Parser,
                    ghost all: seq<Upload>, ghost body: string, ghost b: string, ghost off: nat)
    returns (i': nat, ps': Parser)
    requires b != "" && i < len && ps.state == StartHeaders
    requires Holds(buffer[..], body, off, len) && OnTrack(all, ps, body, b, off + i)
    ensures i < i' && OnTrack(all, ps', body, b, Min(off + i', off + len))
    ensures ps'.state != FindBoundary && ps'.state != EndData
  {
    hide Reading, FindChar;
    Stretch(buffer[..], body, off, len, i);
    ReadHeaderLine(all, ps.ret, body, b, off + i, off + len, ps.headerLine, ps.headers, ps.startOffset);
    if ps.headerLine == "" && buffer[i] == '\r' {
      return i + 1, ps.(state := EndHeaders);
    }
    var pch := FindChar(buffer[i..len], '\r', 0);
    if pch == -1 {
      return len + 1, ps.(headerLine := ps.headerLine + buffer[i..len]);
    }
    return i + pch + 1, ps.(headerLine := ps.headerLine + buffer[i..i + pch], state := FinishHeader);
  }

  /** The `EndData` turn: an upload ends, or the last bytes are kept for the next read. */
  method DataTurn(buffer: array<char>, i: nat, len: nat, pos: nat, ps: Parser, boundary: string,
                  ghost all: seq<Upload>, ghost body: string)
    returns (i': nat, ps': Parser, bufferSkip: nat)
    requires 0 < |boundary| <= buffer.Length && '\n' !in boundary && len <= pos
    requires i < len && ps.state == EndData && ps.startOffset < pos
    requires len == buffer.Length || pos == |body|
    requires Holds(buffer[..], body, pos - len, len) && OnTrack(all, ps, body, boundary, pos - len + i)
    modifies buffer
    ensures i < i' && bufferSkip <= pos
    ensures i' <= len ==> bufferSkip == 0 && buffer[..] == old(buffer[..])
    ensures i' > len ==> Holds(buffer[..], body, pos - bufferSkip, bufferSkip) && bufferSkip < |boundary|
    ensures OnTrack(all, ps', body, boundary, Min(pos - len + i', pos) - bufferSkip)
    ensures bufferSkip > 0 ==> ps'.state == EndData
    ensures ps'.state != FindBoundary && (ps'.state == EndData ==> ps'.startOffset < pos)
  {
    hide At, Find, Resume, Delimited, InData, Reading, Holds;
    ghost var p := pos - len + i;
    Stretch(buffer[..], body, pos - len, len, i);
    SliceFind(body, boundary, p, pos);
    var moved, state' := SearchBoundary(buffer, i, len, boundary, ps.state);
    i' := i + moved;
    if state' == EndBoundaryCR {
      var endOffset := pos - len + i' - |boundary| - 1;
      ReadDelimiter(all, ps.ret, body, boundary, p, endOffset + 2, ps.headerLine, ps.headers, ps.startOffset);
      ps' := Parser(EndBoundaryCR, ps.headerLine, [], ps.startOffset,
                    ps.ret + [Upload(ps.headers, ps.startOffset, endOffset)]);
      bufferSkip := 0;
    } else {
      DataKept(all, ps, body, boundary, p, pos, len, buffer.Length);
      ps' := ps;
      bufferSkip := |boundary| - 1;
      MoveDown(buffer, len, bufferSkip, body, pos - len);
    }
    i' := i' + 1;
  }

  /** A buffer without a delimiter is longer than what is kept of it. */
  lemma DataKept(all: seq<Upload>, ps: Parser, body: string, b: string, p: nat, pos: nat, len: nat, size: nat)
    requires 0 < |b| <= size && '\n' !in b && p < pos <= |body| && len <= pos && (len == size || pos == |body|)
    requires ps.state == EndData && OnTrack(all, ps, body, b, p) && ps.startOffset < pos
    requires Find(body[p..pos], b, 0) == -1
    ensures len >= |b| && OnTrack(all, ps, body, b, pos - |b| + 1)
  {
    hide At, Find, Resume, Delimited, InData;
    MoreToCome(body, b, p, pos, ps.headerLine);
    ReadData(all, ps.ret, body, b, p, pos, pos - |b| + 1, ps.headerLine, ps.headers, ps.startOffset);
  }

  /** The turns that look at one byte; `stop` gives up. */
  method ByteTurn(buffer: array<char>, i: nat, len: nat, pos: nat, ps: Parser,
                  ghost all: seq<Upload>, ghost body: string, ghost b: string)
    returns (ps': Parser, stop: bool)
    requires b != "" && i < len <= pos
    requires ps.state in {EndBoundaryCR, EndBoundaryLF, FinishHeader, EndHeaders, StartData}
    requires Holds(buffer[..], body, pos - len, len) && OnTrack(all, ps, body, b, pos - len + i)
    ensures stop ==> ps'.ret == all
    ensures !stop ==> OnTrack(all, ps', body, b, pos - len + i + 1)
    ensures !stop ==> ps'.state != FindBoundary && (ps'.state == EndData ==> ps'.startOffset < pos)
  {
    Stretch(buffer[..], body, pos - len, len, i);
    ReadByte(all, ps.ret, ps.state, body, b, pos - len + i, ps.headerLine, ps.headers, ps.startOffset);
    hide Reading;
    match Step(ps.state, buffer[i], pos - len + i, ps.headerLine, ps.headers, ps.startOffset)
    case Stop => ps', stop := ps, true;
    case Go(state, headers, line, start) => ps', stop := Parser(state, line, headers, start, ps.ret), false;
  }

  /** The first delimiter, which the first buffer holds. */
  method FirstTurn(buffer: array<char>, length: nat, boundary: string, ghost all: seq<Upload>, ghost body: string)
    returns (i: nat, ps: Parser)
    requires 0 < |boundary| <= buffer.Length && At(body, boundary, 0) && 0 < length
    requires length == buffer.Length || length == |body|
    requires Holds(buffer[..], body, 0, length) && OnTrack(all, START, body, boundary, 0)
    ensures 0 < i <= length && OnTrack(all, ps, body, boundary, i) && ps.state == EndBoundaryCR
  {
    hide Reading, Find, Resume, Delimited, InData;
    Whole(buffer, body, length, length);
    FirstFits(body, boundary, length, length, buffer.Length);
    ReadFirst(all, START.ret, body, boundary, length);
    var moved, state' := SearchBoundary(buffer, 0, length, boundary, START.state);
    i, ps := moved + 1, START.(state := state');
  }

  lemma HoldsWithin(buffer: string, body: string, off: int, len: nat)
    requires Holds(buffer, body, off, len)
    ensures off + len <= |body|
  {
  }

  lemma HoldsNothing(buffer: string, body: string, pos: nat)
    requires pos <= |body|
    ensures Holds(buffer, body, pos, 0)
  {
  }

  /** One buffer: turns until its bytes are used up. */
  method OneBuffer(buffer: array<char>, length: nat, pos: nat, ps0: Parser, boundary: string,
                   ghost all: seq<Upload>, ghost body: string)
    returns (ps: Parser, bufferSkip: nat, stop: bool)
    requires 0 < |boundary| <= buffer.Length && '\n' !in boundary && 0 < length <= pos
    requires length == buffer.Length || pos == |body|
    requires At(body, boundary, 0)
    requires Holds(buffer[..], body, pos - length, length) && OnTrack(all, ps0, body, boundary, pos - length)
    requires ps0.state == EndData ==> ps0.startOffset < pos
    requires ps0.state == FindBoundary ==> ps0 == START && pos == length
    modifies buffer
    ensures stop ==> ps.ret == all
    ensures !stop ==> && bufferSkip <= pos && bufferSkip < |boundary|
                      && Holds(buffer[..], body, pos - bufferSkip, bufferSkip)
                      && OnTrack(all, ps, body, boundary, pos - bufferSkip)
                      && (bufferSkip > 0 ==> ps.state == EndData)
                      && ps.state != FindBoundary
                      && (ps.state == EndData ==> ps.startOffset < pos)
  {
    hide Find, At, Resume, Delimited, Holds, OnTrack;
    HoldsWithin(buffer[..], body, pos - length, length);
    ps, bufferSkip, stop := ps0, 0, false;
    var i := 0;
    while i < length
      invariant 0 <= i && bufferSkip <= pos && !stop
      invariant if i == 0 then ps == ps0 else ps.state != FindBoundary
      invariant bufferSkip > 0 ==> ps.state == EndData
      invariant i <= length ==> bufferSkip == 0 && Holds(buffer[..], body, pos - length, length)
      invariant i > length ==> bufferSkip < |boundary| && Holds(buffer[..], body, pos - bufferSkip, bufferSkip)
      invariant OnTrack(all, ps, body, boundary, Min(pos - length + i, pos) - bufferSkip)
      invariant ps.state == EndData ==> ps.startOffset < pos
      decreases length - i
    {
      match ps.state {
        case FindBoundary =>
          i, ps := FirstTurn(buffer, length, boundary, all, body);
        case StartHeaders =>
          HoldsNothing(buffer[..], body, pos);
          i, ps := HeaderTurn(buffer, i, length, ps, all, body, boundary, pos - length);
        case EndData =>
          i, ps, bufferSkip := DataTurn(buffer, i, length, pos, ps, boundary, all, body);
        case _ =>
          ps, stop := ByteTurn(buffer, i, length, pos, ps, all, body, boundary);
          if stop {
            return;
          }
          i := i + 1;
      }
    }
    HoldsNothing(buffer[..], body, pos);
  }

  lemma FirstFits(body: string, b: string, pos: nat, length: nat, size: nat)
    requires At(body, b, 0) && |b| <= size && pos == length <= |body| && (length == size || pos == |body|)
    ensures |b| <= pos
  {
  }

  lemma Whole(buffer: array<char>, body: string, length: nat, pos: nat)
    requires Holds(buffer[..], body, pos - length, length) && pos == length
    ensures length <= buffer.Length && pos <= |body| && buffer[0..length] == body[0..pos]
  {
    assert buffer[0..length] == buffer[..][..length];
  }

  /** Parsing through a buffer of any size that takes a delimiter finds what the unbuffered parse
      of the whole body finds. */
  method Execute(buffer: array<char>, body: string, boundary: string) returns (ret: seq<Upload>)
    requires 0 < |boundary| <= buffer.Length && '\n' !in boundary
    requires At(body, boundary, 0) && Delimited(FindBoundary, body, boundary, 0, "")
    modifies buffer
    ensures ret == Resume(FindBoundary, body, boundary, 0, "", [], 0)
  {
    ghost var all := Resume(FindBoundary, body, boundary, 0, "", [], 0);
    assert [] + all == all;
    hide Find, At, InData, Resume, Delimited;
    var pos := 0;
    var contentLength := |body|;
    var bufferSkip := 0;
    var ps := START;
    while pos < contentLength
      invariant 0 <= bufferSkip <= pos <= contentLength && bufferSkip < |boundary|
      invariant Holds(buffer[..], body, pos - bufferSkip, bufferSkip)
      invariant OnTrack(all, ps, body, boundary, pos - bufferSkip)
      invariant ps.state == EndData ==> ps.startOffset < pos
      invariant bufferSkip > 0 ==> ps.state == EndData
      invariant ps.state == FindBoundary ==> ps == START && pos == 0
      decreases contentLength - pos
    {
      var len := Min(buffer.Length - bufferSkip, contentLength - pos);
      Fill(buffer, bufferSkip, body, pos, len);
      pos := pos + len;
      len := len + bufferSkip;
      var stop;
      ps, bufferSkip, stop := OneBuffer(buffer, len, pos, ps, boundary, all, body);
      if stop {
        return ps.ret;
      }
    }
    ReadAll(all, ps, body, boundary, pos - bufferSkip);
    ret := ps.ret;
  }

  /** A read of `len` bytes of the body behind the bytes kept. */
  method Fill(buffer: array<char>, skip: nat, body: string, pos: nat, len: nat)
    requires skip + len <= buffer.Length && skip <= pos && pos + len <= |body|
    requires Holds(buffer[..], body, pos - skip, skip)
    modifies buffer
    ensures Holds(buffer[..], body, pos - skip, skip + len)
  {
    ghost var kept := buffer[..skip];
    assert kept == buffer[..][..skip];
    forall k | 0 <= k < len {
      buffer[skip + k] := body[pos + k];
    }
    assert forall k :: 0 <= k < skip ==> buffer[k] == kept[k];
    assert buffer[..][..skip + len] == body[pos - skip..pos] + body[pos..pos + len];
  }

  /** `memmove` of the last `keep` bytes to the front. */
  method MoveDown(buffer: array<char>, len: nat, keep: nat, ghost body: string, ghost off: nat)
    requires keep <= len <= buffer.Length && Holds(buffer[..], body, off, len)
    modifies buffer
    ensures Holds(buffer[..], body, off + len - keep, keep)
  {
    ghost var before := buffer[..];
    forall k | 0 <= k < keep {
      buffer[k] := buffer[len - keep + k];
    }
    assert buffer[..][..keep] == before[..len][len - keep..];
    assert before[..len][len - keep..] == body[off + len - keep..off + len];
  }

  lemma Stretch(bytes: string, body: string, off: nat, len: nat, i: nat)
    requires Holds(bytes, body, off, len) && i < len
    ensures len <= |bytes| && 0 <= off && off + len <= |body|
    ensures bytes[i] == body[off + i]
    ensures forall n :: i <= n <= len ==> bytes[i..n] == body[off + i..off + n]
  {
    assert forall k :: 0 <= k < len ==> bytes[k] == bytes[..len][k];
    assert forall k :: off <= k < off + len ==> body[k] == body[off..off + len][k - off];
    forall n | i <= n <= len
      ensures bytes[i..n] == body[off + i..off + n]
    {
      assert forall k :: i <= k < n ==> bytes[i..n][k - i] == bytes[k];
    }
  }

  lemma ReadAll(all: seq<Upload>, ps: Parser, body: string, b: string, p: nat)
    requires b != "" && OnTrack(all, ps, body, b, p) && p + |b| > |body|
    requires ps.state == EndData || p == |body|
    ensures ps.ret == all
  {
    if p < |body| {
      DelimitedData(body, b, p, ps.headerLine, ps.headers, ps.startOffset);
    }
    assert ps.ret + [] == ps.ret;
  }
}
