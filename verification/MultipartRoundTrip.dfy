/** Well-formed bodies: what the parser finds in an encoded list of parts, and reading it back. */
module MultipartRoundTrip {
  import opened Multipart

  const CRLF := "\r\n"

  datatype Part = Part(headers: Headers, data: string)

  function HeaderLines(headers: Headers): string {
    if headers == [] then ""
    else (headers[0].0 + ": " + headers[0].1) + CRLF + HeaderLines(headers[1..])
  }

  /** One part after its delimiter, up to the next delimiter. */
  function PartText(part: Part): string {
    CRLF + (HeaderLines(part.headers) + (CRLF + (part.data + CRLF)))
  }

  /** Delimited parts, then a last delimiter followed by something that is no line end. */
  function Encode(parts: seq<Part>, b: string, tail: string): string {
    if parts == [] then b + tail else b + (PartText(parts[0]) + Encode(parts[1..], b, tail))
  }

  /** What follows a delimiter is no whole part's beginning: no line end, or headers that break off. */
  predicate BreaksOff(tail: string) {
    !HasLineEnd(tail, 0) || HeadersBreakOff(tail[2..])
  }

  predicate HasLineEnd(s: string, q: nat) {
    q + 2 <= |s| && s[q] == '\r' && s[q + 1] == '\n'
  }

  /** Lines that are not ended, or that a carriage return alone ends, or that end with the body. */
  predicate HeadersBreakOff(s: string) {
    '\r' in s ==>
      var q := FindChar(s, '\r', 0);
      !HasLineEnd(s, q) || (if q == 0 then |s| == 2 else HeadersBreakOff(s[q + 2..]))
  }

  /** A header whose line reads back: no line end, no colon in the name, no outer space. */
  predicate PlainHeader(h: (string, string)) {
    && ':' !in h.0 && '\r' !in h.0 && '\r' !in h.1
    && (h.1 != "" ==> !Space(h.1[0]) && !Space(h.1[|h.1| - 1]))
  }

  ghost predicate PlainHeaders(headers: Headers) {
    && (forall i :: 0 <= i < |headers| ==> PlainHeader(headers[i]))
    && (forall i, j :: 0 <= i < j < |headers| ==> !SameName(headers[j].0, headers[i].0))
  }

  /** The data never spells the delimiter, not even within a line. */
  ghost predicate PlainPart(part: Part, b: string) {
    && PlainHeaders(part.headers)
    && forall q :: 0 <= q <= |part.data| ==> !At(part.data, b, q)
  }

  predicate Boundary(b: string) {
    b != "" && '\r' !in b && '\n' !in b
  }

  /** The uploads of parts whose first delimiter stands at `p`. */
  function Uploads(parts: seq<Part>, b: string, p: nat): seq<Upload> {
    if parts == [] then []
    else
      var start := p + |b| + 2 + |HeaderLines(parts[0].headers)| + 2;
      [Upload(parts[0].headers, start, start + |parts[0].data|)]
      + Uploads(parts[1..], b, p + |b| + |PartText(parts[0])|)
  }

  // ----- Headers -------------------------------------------------------------------------------

  /** White space as a header line may have it around its value. */
  predicate White(s: string) {
    forall i :: 0 <= i < |s| ==> s[i] in [' ', '\t', '\n', 11 as char, 12 as char, '\r']
  }

  /** A value without white space at its ends. */
  predicate Bare(v: string) {
    v != "" ==> !White([v[0]]) && !White([v[|v| - 1]])
  }

  lemma WhiteIsSpace(c: char)
    ensures White([c]) <==> Space(c)
  {
    assert [c][0] == c;
  }

  lemma {:induction false} TrimmedIs(before: string, v: string, after: string)
    requires White(before) && White(after) && Bare(v)
    ensures Trimmed(before + (v + after)) == v
    decreases |before| + |after|
  {
    var s := before + (v + after);
    if before != "" {
      WhiteIsSpace(before[0]);
      assert White([before[0]]);
      assert s[1..] == before[1..] + (v + after);
      TrimmedIs(before[1..], v, after);
    } else if v == "" {
      if after != "" {
        WhiteIsSpace(after[0]);
        assert White([after[0]]);
        assert s[1..] == "" + ("" + after[1..]);
        TrimmedIs("", "", after[1..]);
      }
    } else {
      WhiteIsSpace(v[0]);
      assert s[0] == v[0];
      if after != "" {
        WhiteIsSpace(after[|after| - 1]);
        assert White([after[|after| - 1]]);
        assert s[|s| - 1] == after[|after| - 1] && s[..|s| - 1] == "" + (v + after[..|after| - 1]);
        TrimmedIs("", v, after[..|after| - 1]);
      } else {
        WhiteIsSpace(v[|v| - 1]);
        assert s == v;
      }
    }
  }

  /** A header line is split at its first colon, and its value is bared of white space. */
  lemma LineAdded(headers: Headers, name: string, before: string, value: string, after: string)
    requires ':' !in name && White(before) && White(after) && Bare(value)
    ensures AddLine(headers, name + ":" + (before + (value + after))) == SetHeader(headers, name, value)
  {
    var tail := before + (value + after);
    var line := name + ":" + tail;
    assert forall i :: 0 <= i < |name| ==> line[i] == name[i];
    assert line[|name|] == ':' && FindChar(line, ':', 0) == |name|;
    assert line[..|name|] == name && line[|name| + 1..] == tail;
    TrimmedIs(before, value, after);
  }

  /** A line without a colon is a value without a name. */
  lemma NamelessAdded(headers: Headers, before: string, value: string, after: string)
    requires ':' !in value && White(before) && White(after) && Bare(value)
    ensures AddLine(headers, before + (value + after)) == SetHeader(headers, "", value)
  {
    var line := before + (value + after);
    forall i | 0 <= i < |line|
      ensures line[i] != ':'
    {
      if i < |before| {
        assert line[i] == before[i];
      } else if i < |before| + |value| {
        assert line[i] == value[i - |before|];
      } else {
        assert line[i] == after[i - |before| - |value|];
      }
    }
    assert FindChar(line, ':', 0) == -1 && line[0..] == line;
    TrimmedIs(before, value, after);
  }

  /** The values of a name, letters in either case. */
  function ValuesOf(headers: Headers, name: string): seq<string> {
    if headers == [] then []
    else (if SameName(name, headers[0].0) then [headers[0].1] else []) + ValuesOf(headers[1..], name)
  }

  /** Capital letters are compared as small ones, everything else as itself. */
  lemma NamesCompare(c: char)
    ensures Lower(c) == if c in "ABCDEFGHIJKLMNOPQRSTUVWXYZ" then (c as int + 32) as char else c
  {
    var letters := "ABCDEFGHIJKLMNOPQRSTUVWXYZ";
    assert forall i :: 0 <= i < 26 ==> letters[i] as int == 65 + i;
    if 'A' <= c <= 'Z' {
      assert letters[c as int - 65] == c;
    }
  }

  /** After a header is set its name has just this value, and any other name the values it had, in order. */
  lemma {:induction false} HeaderIsSet(headers: Headers, name: string, value: string, other: string)
    ensures ValuesOf(SetHeader(headers, name, value), name) == [value]
    ensures !SameName(name, other) ==> ValuesOf(SetHeader(headers, name, value), other) == ValuesOf(headers, other)
  {
    hide SameName;
    SameIsSame(name);
    if headers == [] {
      BothSame(name, other, name);
      assert [(name, value)][1..] == [];
    } else {
      var rest := headers[1..];
      BothSame(name, other, headers[0].0);
      if SameName(name, headers[0].0) {
        WithoutHas(rest, name, other);
        assert ([(headers[0].0, value)] + Without(rest, name))[1..] == Without(rest, name);
      } else {
        HeaderIsSet(rest, name, value, other);
        assert ([headers[0]] + SetHeader(rest, name, value))[1..] == SetHeader(rest, name, value);
      }
    }
  }

  lemma SameIsSame(a: string)
    ensures SameName(a, a)
  {
  }

  lemma BothSame(a: string, b: string, c: string)
    ensures SameName(a, c) && SameName(b, c) ==> SameName(a, b)
  {
  }

  lemma {:induction false} WithoutHas(headers: Headers, name: string, other: string)
    ensures ValuesOf(Without(headers, name), name) == []
    ensures !SameName(name, other) ==> ValuesOf(Without(headers, name), other) == ValuesOf(headers, other)
  {
    hide SameName, ValuesOf, Without;
    if headers == [] {
      NoValues(name, other);
    } else {
      WithoutHas(headers[1..], name, other);
      BothSame(name, other, headers[0].0);
      WithoutStep(headers, name);
      FirstValue(headers[0], headers[1..], other);
      FirstValue(headers[0], Without(headers[1..], name), name);
      FirstValue(headers[0], Without(headers[1..], name), other);
      assert headers == [headers[0]] + headers[1..];
    }
  }

  lemma NoValues(name: string, other: string)
    ensures Without([], name) == [] && ValuesOf([], name) == [] && ValuesOf([], other) == []
  {
  }

  lemma WithoutStep(headers: Headers, name: string)
    requires headers != []
    ensures Without(headers, name)
            == if SameName(name, headers[0].0) then Without(headers[1..], name)
               else [headers[0]] + Without(headers[1..], name)
  {
  }

  lemma FirstValue(header: (string, string), rest: Headers, name: string)
    ensures ValuesOf([header] + rest, name)
            == if SameName(name, header.0) then [header.1] + ValuesOf(rest, name) else ValuesOf(rest, name)
  {
    assert ([header] + rest)[1..] == rest;
  }

  lemma {:induction false} TrimmedValue(v: string)
    requires v != "" ==> !Space(v[0]) && !Space(v[|v| - 1])
    ensures Trimmed(" " + v) == v
  {
    assert (" " + v)[1..] == v;
  }

  lemma {:induction false} NewHeader(headers: Headers, name: string, value: string)
    requires forall i :: 0 <= i < |headers| ==> !SameName(name, headers[i].0)
    ensures SetHeader(headers, name, value) == headers + [(name, value)]
  {
    if headers == [] {
    } else {
      NewHeader(headers[1..], name, value);
    }
  }

  lemma {:induction false} FindCharIs(s: string, c: char, p: nat, r: nat)
    requires p <= r < |s| && s[r] == c && forall q :: p <= q < r ==> s[q] != c
    ensures FindChar(s, c, p) == r
  {
  }

  lemma AddPlainLine(headers: Headers, h: (string, string))
    requires PlainHeader(h) && forall i :: 0 <= i < |headers| ==> !SameName(h.0, headers[i].0)
    ensures AddLine(headers, h.0 + ": " + h.1) == headers + [h]
  {
    var line := h.0 + ": " + h.1;
    FindCharIs(line, ':', 0, |h.0|);
    assert line[..|h.0|] == h.0;
    assert line[|h.0| + 1..] == " " + h.1;
    TrimmedValue(h.1);
    NewHeader(headers, h.0, h.1);
  }

  lemma ReadPlainLine(body: string, b: string, p: nat, h: (string, string), rest: string, headers: Headers, start: int)
    requires b != "" && p <= |body| && body[p..] == (h.0 + ": " + h.1) + (CRLF + rest) && PlainHeader(h)
    requires forall i :: 0 <= i < |headers| ==> !SameName(h.0, headers[i].0)
    ensures var p' := p + |h.0| + 2 + |h.1| + 2;
            && p' <= |body| && body[p'..] == rest
            && Resume(StartHeaders, body, b, p, "", headers, start)
               == Resume(StartHeaders, body, b, p', "", headers + [h], start)
            && (Delimited(StartHeaders, body, b, p, "") <==> Delimited(StartHeaders, body, b, p', ""))
  {
    hide Resume, Delimited, AddLine, FindChar;
    var line := h.0 + ": " + h.1;
    var q := p + |line|;
    PlainLineAt(body, p, h, rest);
    FindCharIs(body, '\r', p, q);
    OneLine(body, b, p, q, headers, start);
    AddPlainLine(headers, h);
  }

  lemma PlainLineAt(body: string, p: nat, h: (string, string), rest: string)
    requires p <= |body| && body[p..] == (h.0 + ": " + h.1) + (CRLF + rest) && PlainHeader(h)
    ensures var line := h.0 + ": " + h.1;
            var q := p + |line|;
            && p < q && q + 2 <= |body| && body[p..q] == line && body[q] == '\r' && body[q + 1] == '\n'
            && body[q + 2..] == rest && forall i :: p <= i < q ==> body[i] != '\r'
  {
    var line := h.0 + ": " + h.1;
    var q := p + |line|;
    assert forall i :: p <= i < |body| ==> body[i] == body[p..][i - p];
    assert forall i :: 0 <= i < |line| ==> line[i] != '\r';
    assert body[p..q] == line;
    assert body[q + 2..] == body[p..][|line| + 2..];
  }

  /** The parser over one header line. */
  lemma OneLine(body: string, b: string, p: nat, q: nat, headers: Headers, start: int)
    requires b != "" && p < q && q + 2 <= |body| && FindChar(body, '\r', p) == q && body[p] != '\r'
             && body[q + 1] == '\n'
    ensures Resume(StartHeaders, body, b, p, "", headers, start)
            == Resume(StartHeaders, body, b, q + 2, "", AddLine(headers, body[p..q]), start)
    ensures Delimited(StartHeaders, body, b, p, "") <==> Delimited(StartHeaders, body, b, q + 2, "")
  {
    hide AddLine, FindChar;
    assert "" + body[p..q] == body[p..q];
  }

  lemma EndOfHeaders(body: string, b: string, p: nat, rest: string, headers: Headers, start: int)
    requires b != "" && p <= |body| && body[p..] == CRLF + rest
    ensures p + 2 <= |body| && body[p + 2..] == rest && body[p + 1] == '\n'
    ensures Resume(StartHeaders, body, b, p, "", headers, start)
            == Resume(StartData, body, b, p + 2, "", headers, start)
    ensures Delimited(StartHeaders, body, b, p, "") <==> Delimited(StartData, body, b, p + 2, "")
  {
    LineEnd(body, p, rest);
  }

  lemma NextHeader(before: Headers, headers: Headers)
    requires headers != [] && PlainHeaders(before + headers)
    ensures PlainHeader(headers[0])
    ensures forall i :: 0 <= i < |before| ==> !SameName(headers[0].0, before[i].0)
    ensures (before + [headers[0]]) + headers[1..] == before + headers
  {
    var all := before + headers;
    assert all[|before|] == headers[0];
    assert forall i :: 0 <= i < |before| ==> all[i] == before[i];
  }

  lemma NoHeaderLines(rest: string)
    ensures HeaderLines([]) == "" && HeaderLines([]) + (CRLF + rest) == CRLF + rest
  {
  }

  lemma HeaderLinesStep(headers: Headers, rest: string)
    requires headers != []
    ensures var h := headers[0];
            && HeaderLines(headers) + (CRLF + rest)
               == (h.0 + ": " + h.1) + (CRLF + (HeaderLines(headers[1..]) + (CRLF + rest)))
            && |HeaderLines(headers)| == |h.0| + 2 + |h.1| + 2 + |HeaderLines(headers[1..])|
  {
    var line, more := headers[0].0 + ": " + headers[0].1, HeaderLines(headers[1..]);
    assert HeaderLines(headers) == line + CRLF + more;
    hide HeaderLines;
    LinesShift(line, more, CRLF + rest);
  }

  lemma LinesShift(line: string, more: string, rest: string)
    ensures (line + CRLF + more) + rest == line + (CRLF + (more + rest))
  {
  }

  lemma {:induction false} ReadPlainHeaders(body: string, b: string, p: nat, before: Headers, headers: Headers,
                                            rest: string, start: int)
    requires b != "" && p <= |body| && body[p..] == HeaderLines(headers) + (CRLF + rest)
    requires PlainHeaders(before + headers)
    ensures var p' := p + |HeaderLines(headers)| + 2;
            && p' <= |body| && body[p'..] == rest && body[p' - 1] == '\n'
            && Resume(StartHeaders, body, b, p, "", before, start)
               == Resume(StartData, body, b, p', "", before + headers, start)
            && (Delimited(StartHeaders, body, b, p, "") <==> Delimited(StartData, body, b, p', ""))
    decreases |headers|
  {
    NoHeaderLines(rest);
    hide Resume, Delimited, HeaderLines, PlainHeaders, SameName;
    if headers == [] {
      assert before + headers == before;
      EndOfHeaders(body, b, p, rest, before, start);
    } else {
      var h := headers[0];
      var line := h.0 + ": " + h.1;
      var after := HeaderLines(headers[1..]) + (CRLF + rest);
      NextHeader(before, headers);
      HeaderLinesStep(headers, rest);
      ReadPlainLine(body, b, p, h, after, before, start);
      ReadPlainHeaders(body, b, p + |line| + 2, before + [h], headers[1..], rest, start);
    }
  }

  // ----- Data ----------------------------------------------------------------------------------

  /** After plain data the next delimiter is the one that ends it. */
  lemma NoDelimiterInData(body: string, b: string, p: nat, data: string, rest: string, from: nat)
    requires Boundary(b) && p <= |body| && body[p..] == data + (CRLF + (b + rest)) && from <= 1
    requires forall q :: from <= q <= |data| ==> !At(data, b, q)
    ensures forall q: nat :: p + from <= q < p + |data| + 2 ==> !At(body, b, q)
    ensures At(body, b, p + |data| + 2)
  {
    var e := p + |data|;
    assert forall i :: p <= i < |body| ==> body[i] == body[p..][i - p];
    assert body[e] == '\r' && body[e + 1] == '\n';
    assert body[e + 2..e + 2 + |b|] == b;
    forall q: nat | p + from <= q < e + 2
      ensures !At(body, b, q)
    {
      if At(body, b, q) {
        if q + |b| <= e {
          assert data[q - p..q - p + |b|] == body[q..q + |b|];
          assert At(data, b, q - p);
        } else if q <= e {
          Covers(body, b, q, e);
        } else {
          Covers(body, b, q, e + 1);
        }
      }
    }
  }

  lemma ReadPlainData(body: string, b: string, p: nat, data: string, rest: string, headers: Headers, start: int)
    requires Boundary(b) && p <= |body| && body[p..] == data + (CRLF + (b + rest))
    requires forall q :: 0 <= q <= |data| ==> !At(data, b, q)
    ensures var q := p + |data| + 2;
            && q + |b| <= |body|
            && Resume(StartData, body, b, p, "", headers, start)
               == [Upload(headers, p, p + |data|)] + Resume(EndBoundaryCR, body, b, q + |b|, "", [], p)
            && (Delimited(StartData, body, b, p, "") <==> Delimited(EndBoundaryCR, body, b, q + |b|, ""))
  {
    NoDelimiterInData(body, b, p, data, rest, 0);
    assert |body[p..]| == |data| + 2 + |b| + |rest|;
    FindIs(body, b, p + 1, p + |data| + 2);
  }

  // ----- Whole bodies --------------------------------------------------------------------------

  lemma {:induction false} ReadParts(body: string, b: string, p: nat, parts: seq<Part>, tail: string, start: int)
    requires Boundary(b) && p <= |body| && body[p..] == Encode(parts, b, tail)
    requires BreaksOff(tail)
    requires forall i :: 0 <= i < |parts| ==> PlainPart(parts[i], b)
    ensures p + |b| <= |body|
    ensures Resume(EndBoundaryCR, body, b, p + |b|, "", [], start) == Uploads(parts, b, p)
    ensures Delimited(EndBoundaryCR, body, b, p + |b|, "")
    decreases |parts|
  {
    hide Resume, Delimited, HeaderLines, PlainHeaders, Encode, Uploads;
    var q := p + |b|;
    EncodeStarts(parts, b, tail);
    assert body[q..] == Encode(parts, b, tail)[|b|..];
    if parts == [] {
      LastDelimiter(body, b, p, tail, start);
    } else {
      var rest := EncodeStep(parts, b, tail);
      ReadPart(body, b, q, parts[0], rest, start);
      var s := q + 2 + |HeaderLines(parts[0].headers)| + 2;
      ReadParts(body, b, s + |parts[0].data| + 2, parts[1..], tail, s);
      UploadsStep(parts, b, p);
    }
  }

  /** One part, from behind its delimiter to behind the next. */
  lemma ReadPart(body: string, b: string, q: nat, part: Part, rest: string, start: int)
    requires Boundary(b) && PlainPart(part, b) && q <= |body|
    requires body[q..] == CRLF + (HeaderLines(part.headers) + (CRLF + (part.data + (CRLF + (b + rest)))))
    ensures var s := q + 2 + |HeaderLines(part.headers)| + 2;
            var p := s + |part.data| + 2;
            && p + |b| <= |body| && body[p..] == b + rest
            && Resume(EndBoundaryCR, body, b, q, "", [], start)
               == [Upload(part.headers, s, s + |part.data|)] + Resume(EndBoundaryCR, body, b, p + |b|, "", [], s)
            && (Delimited(EndBoundaryCR, body, b, q, "") <==> Delimited(EndBoundaryCR, body, b, p + |b|, ""))
  {
    hide Resume, Delimited, HeaderLines, PlainHeaders;
    var lines := HeaderLines(part.headers);
    var data := part.data + (CRLF + (b + rest));
    assert [] + part.headers == part.headers;
    DelimiterLine(body, b, q, lines + (CRLF + data), start);
    ReadPlainHeaders(body, b, q + 2, [], part.headers, data, start);
    var s := q + 2 + |lines| + 2;
    ReadPlainData(body, b, s, part.data, rest, part.headers, start);
    NextPart(body, s, part.data, b + rest);
  }

  lemma NextPart(body: string, s: nat, data: string, next: string)
    requires s <= |body| && body[s..] == data + (CRLF + next)
    ensures s + |data| + 2 <= |body| && body[s + |data| + 2..] == next
  {
    assert body[s + |data| + 2..] == body[s..][|data| + 2..];
  }

  lemma EncodeStarts(parts: seq<Part>, b: string, tail: string)
    ensures |b| <= |Encode(parts, b, tail)| && Encode(parts, b, tail)[..|b|] == b
    ensures parts == [] ==> Encode(parts, b, tail)[|b|..] == tail
  {
  }

  lemma LastDelimiter(body: string, b: string, p: nat, tail: string, start: int)
    requires b != "" && p + |b| <= |body| && body[p + |b|..] == tail && BreaksOff(tail)
    ensures Resume(EndBoundaryCR, body, b, p + |b|, "", [], start) == Uploads([], b, p)
    ensures Delimited(EndBoundaryCR, body, b, p + |b|, "")
  {
    hide Resume, Delimited, HeadersBreakOff;
    var q := p + |b|;
    SameEnd(body, q, 0);
    if HasLineEnd(tail, 0) {
      assert tail == CRLF + tail[2..];
      DelimiterLine(body, b, q, tail[2..], start);
      BrokenHeaders(body, b, q + 2, [], start);
    } else {
      NoLineEnd(body, b, q, start);
    }
  }

  lemma SameEnd(body: string, p: nat, q: nat)
    requires p <= |body|
    ensures HasLineEnd(body[p..], q) == HasLineEnd(body, p + q)
  {
    assert forall i :: p <= i < |body| ==> body[i] == body[p..][i - p];
  }

  lemma {:induction false} BrokenHeaders(body: string, b: string, p: nat, headers: Headers, start: int)
    requires b != "" && p <= |body| && HeadersBreakOff(body[p..])
    ensures Resume(StartHeaders, body, b, p, "", headers, start) == [] && Delimited(StartHeaders, body, b, p, "")
    decreases |body| - p
  {
    hide Resume, Delimited, FindChar, AddLine, HasLineEnd;
    BrokenStep(body, p);
    var q := FindChar(body, '\r', p);
    if q == -1 || q == p || !HasLineEnd(body, q) {
      BrokenHere(body, b, p, headers, start);
    } else {
      EndOfLine(body, q);
      OneLine(body, b, p, q, headers, start);
      BrokenHeaders(body, b, q + 2, AddLine(headers, body[p..q]), start);
    }
  }

  lemma EndOfLine(body: string, q: nat)
    requires HasLineEnd(body, q)
    ensures q + 2 <= |body| && body[q] == '\r' && body[q + 1] == '\n'
  {
  }

  /** What is broken about headers, seen in the whole body. */
  lemma BrokenStep(body: string, p: nat)
    requires p <= |body| && HeadersBreakOff(body[p..])
    ensures var q := FindChar(body, '\r', p);
            || q == -1 || !HasLineEnd(body, q)
            || (if q == p then |body| == p + 2 else q + 2 <= |body| && HeadersBreakOff(body[q + 2..]))
  {
    hide FindChar, HasLineEnd, HeadersBreakOff;
    var s, q := body[p..], FindChar(body, '\r', p);
    if q != -1 && HasLineEnd(body, q) {
      EndOfLine(body, q);
      SliceFindChar(body, '\r', p, |body|);
      assert body[p..|body|] == s && s[q - p] == '\r';
      SameEnd(body, p, q - p);
      BrokenOff(s);
      assert q > p ==> s[q - p + 2..] == body[q + 2..];
    }
  }

  lemma BrokenOff(s: string)
    requires '\r' in s && HeadersBreakOff(s) && HasLineEnd(s, FindChar(s, '\r', 0))
    ensures var q := FindChar(s, '\r', 0);
            if q == 0 then |s| == 2 else q + 2 <= |s| && HeadersBreakOff(s[q + 2..])
  {
    hide FindChar;
  }

  /** The parser stops where no line end follows a delimiter. */
  lemma NoLineEnd(body: string, b: string, q: nat, start: int)
    requires b != "" && q <= |body| && !HasLineEnd(body, q)
    ensures Resume(EndBoundaryCR, body, b, q, "", [], start) == [] && Delimited(EndBoundaryCR, body, b, q, "")
  {
    hide FindChar, AddLine, Find, At;
    if q + 1 < |body| && body[q] == '\r' {
      assert body[q + 1] != '\n';
    }
  }

  /** The parser stops in a line that is not ended, or where the body ends with the headers. */
  lemma BrokenHere(body: string, b: string, p: nat, headers: Headers, start: int)
    requires b != "" && p <= |body|
    requires var q := FindChar(body, '\r', p); q == -1 || !HasLineEnd(body, q) || (q == p && |body| == p + 2)
    ensures Resume(StartHeaders, body, b, p, "", headers, start) == [] && Delimited(StartHeaders, body, b, p, "")
  {
    hide FindChar, AddLine, Find, At;
    var q := FindChar(body, '\r', p);
    if q == p {
      assert Resume(EndHeaders, body, b, q + 1, "", headers, start) == [] by {
        assert q + 2 == |body| ==> Resume(StartData, body, b, q + 2, "", headers, start) == [];
      }
      assert Delimited(EndHeaders, body, b, q + 1, "") by {
        assert q + 2 == |body| ==> Delimited(StartData, body, b, q + 2, "");
      }
    } else if q != -1 {
      var line := "" + body[p..q];
      assert Resume(FinishHeader, body, b, q + 1, line, headers, start) == [];
      assert Delimited(FinishHeader, body, b, q + 1, line);
    }
  }

  lemma EncodeStep(parts: seq<Part>, b: string, tail: string) returns (rest: string)
    requires parts != []
    ensures Encode(parts[1..], b, tail) == b + rest
    ensures var part := parts[0];
            Encode(parts, b, tail)[|b|..]
            == CRLF + (HeaderLines(part.headers) + (CRLF + (part.data + (CRLF + (b + rest)))))
  {
    var next := Encode(parts[1..], b, tail);
    rest := if |parts| == 1 then tail else PartText(parts[1]) + Encode(parts[2..], b, tail);
    assert |parts| > 1 ==> parts[1..][0] == parts[1] && parts[1..][1..] == parts[2..];
    assert Encode(parts, b, tail)[|b|..] == PartText(parts[0]) + next;
  }

  lemma UploadsStep(parts: seq<Part>, b: string, p: nat)
    requires parts != []
    ensures var start := p + |b| + 2 + |HeaderLines(parts[0].headers)| + 2;
            Uploads(parts, b, p)
            == [Upload(parts[0].headers, start, start + |parts[0].data|)]
               + Uploads(parts[1..], b, start + |parts[0].data| + 2)
  {
  }

  lemma DelimiterLine(body: string, b: string, q: nat, rest: string, start: int)
    requires b != "" && q <= |body| && body[q..] == CRLF + rest
    ensures q + 2 <= |body| && body[q + 2..] == rest
    ensures Resume(EndBoundaryCR, body, b, q, "", [], start) == Resume(StartHeaders, body, b, q + 2, "", [], start)
    ensures Delimited(EndBoundaryCR, body, b, q, "") <==> Delimited(StartHeaders, body, b, q + 2, "")
  {
    LineEnd(body, q, rest);
  }

  lemma LineEnd(body: string, q: nat, rest: string)
    requires q <= |body| && body[q..] == CRLF + rest
    ensures q + 2 <= |body| && body[q] == '\r' && body[q + 1] == '\n' && body[q + 2..] == rest
  {
    assert body[q] == body[q..][0] && body[q + 1] == body[q..][1];
    assert body[q + 2..] == body[q..][2..];
  }

  /** Parsing an encoded list of parts gives back the parts: the headers of each, and offsets whose
      slice of the body is its data. */
  lemma EncodeParses(b: string, parts: seq<Part>, tail: string)
    requires Boundary(b) && BreaksOff(tail)
    requires forall i :: 0 <= i < |parts| ==> PlainPart(parts[i], b)
    ensures var body := Encode(parts, b, tail);
            && At(body, b, 0) && Delimited(FindBoundary, body, b, 0, "")
            && var uploads := Resume(FindBoundary, body, b, 0, "", [], 0);
            && |uploads| == |parts|
            && forall i :: 0 <= i < |parts| ==> Carries(uploads[i], body, parts[i])
  {
    hide Encode, Uploads, PlainPart;
    var body := Encode(parts, b, tail);
    assert body[0..] == body;
    EncodeStarts(parts, b, tail);
    ReadParts(body, b, 0, parts, tail, 0);
    FindIs(body, b, 0, 0);
    UploadsCarry(body, b, 0, parts, tail);
  }

  predicate Carries(u: Upload, body: string, part: Part) {
    && u.headers == part.headers
    && 0 <= u.startOffset <= u.endOffset <= |body|
    && body[u.startOffset..u.endOffset] == part.data
  }

  lemma {:induction false} UploadsCarry(body: string, b: string, p: nat, parts: seq<Part>, tail: string)
    requires p <= |body| && body[p..] == Encode(parts, b, tail)
    ensures var uploads := Uploads(parts, b, p);
            |uploads| == |parts| && forall i :: 0 <= i < |parts| ==> Carries(uploads[i], body, parts[i])
    decreases |parts|
  {
    hide Encode, Uploads, HeaderLines;
    UploadsUnfold(parts, b, p);
    if parts == [] {
    } else {
      var rest := EncodeStep(parts, b, tail);
      PartAt(body, b, p, parts, tail);
      UploadsCarry(body, b, p + |b| + |PartText(parts[0])|, parts[1..], tail);
    }
  }

  lemma UploadsUnfold(parts: seq<Part>, b: string, p: nat)
    ensures parts == [] ==> Uploads(parts, b, p) == []
    ensures parts != [] ==>
              var start := p + |b| + 2 + |HeaderLines(parts[0].headers)| + 2;
              Uploads(parts, b, p) == [Upload(parts[0].headers, start, start + |parts[0].data|)]
                                      + Uploads(parts[1..], b, p + |b| + |PartText(parts[0])|)
  {
  }

  /** The first part of an encoded body, and where the next begins. */
  lemma PartAt(body: string, b: string, p: nat, parts: seq<Part>, tail: string)
    requires p <= |body| && parts != [] && body[p..] == Encode(parts, b, tail)
    ensures var start := p + |b| + 2 + |HeaderLines(parts[0].headers)| + 2;
            start + |parts[0].data| <= |body| && body[start..start + |parts[0].data|] == parts[0].data
    ensures var p' := p + |b| + |PartText(parts[0])|;
            p' <= |body| && body[p'..] == Encode(parts[1..], b, tail)
  {
    var part := parts[0];
    var lines := HeaderLines(part.headers);
    var next := Encode(parts[1..], b, tail);
    var start := p + |b| + 2 + |lines| + 2;
    assert body[p..] == b + ((CRLF + (lines + (CRLF + (part.data + CRLF)))) + next);
    assert body[p..][|b| + 2 + |lines| + 2..][..|part.data|] == part.data;
    assert body[start..start + |part.data|] == body[p..][start - p..][..|part.data|];
    var p' := p + |b| + |PartText(part)|;
    assert body[p'..] == body[p..][p' - p..];
  }

  /** An upload ends two bytes before the next delimiter, whatever those bytes are: its slice is the data
      if and only if the delimiter comes just two bytes after them. */
  lemma UploadEndsTwoBytesBefore(body: string, b: string, p: nat, data: string, gap: nat, headers: Headers)
    requires b != "" && |data| + gap >= 1 && At(body, b, p + |data| + gap)
    requires body[p..p + |data|] == data
    requires forall q :: p + 1 <= q < p + |data| + gap ==> !At(body, b, q)
    ensures var uploads := Resume(StartData, body, b, p, "", headers, 0);
            && uploads != [] && uploads[0] == Upload(headers, p, p + |data| + gap - 2)
            && (uploads[0].endOffset == p + |data| <==> gap == 2)
            && (gap < 2 ==> uploads[0].endOffset < p + |data|)
  {
    FindIs(body, b, p + 1, p + |data| + gap);
  }

  /** Data with no line end before the delimiter lose their last two bytes. */
  lemma WithoutLineEndBytesAreLost()
    ensures var uploads := Resume(StartData, "abc--x", "--x", 0, "", [], 0);
            uploads != [] && uploads[0] == Upload([], 0, 1)
  {
    var body, b := "abc--x", "--x";
    assert body[3..6] == b && At(body, b, 3);
    assert body[1..4] == "bc-" && body[2..5] == "c--";
    assert body[0..3] == "abc";
    UploadEndsTwoBytesBefore(body, b, 0, "abc", 0, []);
  }

  /** An upload ends where its data ends exactly when the data spells the delimiter nowhere after
      its first byte. RFC 2046 would let it stand within a line. */
  lemma UploadEndsWithItsData(body: string, b: string, p: nat, data: string, rest: string, headers: Headers)
    requires Boundary(b) && p <= |body| && body[p..] == data + (CRLF + (b + rest))
    ensures var uploads := Resume(StartData, body, b, p, "", headers, 0);
            && uploads != [] && uploads[0].headers == headers && uploads[0].startOffset == p
            && (uploads[0].endOffset == p + |data| <==> forall q :: 1 <= q <= |data| ==> !At(data, b, q))
  {
    var e := p + |data|;
    assert |body[p..]| == |data| + 2 + |b| + |rest|;
    FindIsFirst(body, b, p + 1);
    DelimiterAfterData(body, b, p, data, rest);
    if forall q :: 1 <= q <= |data| ==> !At(data, b, q) {
      NoDelimiterInData(body, b, p, data, rest, 1);
    } else {
      var q :| 1 <= q <= |data| && At(data, b, q);
      DelimiterInData(body, b, p, data, CRLF + (b + rest), q);
    }
  }

  lemma DelimiterInData(body: string, b: string, p: nat, data: string, next: string, q: nat)
    requires p <= |body| && body[p..] == data + next && At(data, b, q)
    ensures At(body, b, p + q)
  {
    assert data[q..q + |b|] == (data + next)[q..q + |b|];
    assert body[p + q..p + q + |b|] == body[p..][q..q + |b|];
  }

  lemma DelimiterAfterData(body: string, b: string, p: nat, data: string, rest: string)
    requires p <= |body| && body[p..] == data + (CRLF + (b + rest))
    ensures At(body, b, p + |data| + 2)
  {
    assert body[p + |data| + 2..p + |data| + 2 + |b|] == body[p..][|data| + 2..][..|b|];
  }
}
