/** Parsing multipart/form-data: the unbuffered reading of a whole body, and the parser that reads
    it through a fixed buffer. Bytes are modelled as characters. */
module Multipart {

  // ----- Headers -------------------------------------------------------------------------------

  type Headers = seq<(string, string)>

  function Lower(c: char): char {
    if 'A' <= c <= 'Z' then (c as int - 'A' as int + 'a' as int) as char else c
  }

  /** Comparison of header names without regard to case. */
  predicate SameName(a: string, b: string) {
    |a| == |b| && forall i :: 0 <= i < |a| ==> Lower(a[i]) == Lower(b[i])
  }

  function Without(headers: Headers, name: string): Headers {
    if headers == [] then []
    else if SameName(name, headers[0].0) then Without(headers[1..], name)
    else [headers[0]] + Without(headers[1..], name)
  }

  /** The first header of that name gets the value and later ones go; a new name goes last. */
  function SetHeader(headers: Headers, name: string, value: string): Headers {
    if headers == [] then [(name, value)]
    else if SameName(name, headers[0].0) then [(headers[0].0, value)] + Without(headers[1..], name)
    else [headers[0]] + SetHeader(headers[1..], name, value)
  }

  predicate Space(c: char) {
    c == ' ' || 9 as char <= c <= 13 as char
  }

  function Trimmed(s: string): string {
    if s == "" then ""
    else if Space(s[0]) then Trimmed(s[1..])
    else if Space(s[|s| - 1]) then Trimmed(s[..|s| - 1])
    else s
  }

  /** A header line split at its first colon; without one the name is empty. */
  function AddLine(headers: Headers, line: string): Headers {
    var dotdot := FindChar(line, ':', 0);
    SetHeader(headers, if dotdot < 0 then "" else line[..dotdot], Trimmed(line[dotdot + 1..]))
  }

  // ----- Searching -----------------------------------------------------------------------------

  predicate At(s: string, b: string, q: nat) {
    q + |b| <= |s| && s[q..q + |b|] == b
  }

  /** The first place at or after `p` where `b` stands, or -1. */
  function Find(s: string, b: string, p: nat): (r: int)
    ensures r == -1 || p <= r <= |s| - |b|
    decreases |s| - p
  {
    if p + |b| > |s| then -1
    else if At(s, b, p) then p
    else Find(s, b, p + 1)
  }

  lemma {:induction false} FindIsFirst(s: string, b: string, p: nat)
    ensures var r := Find(s, b, p);
            && (r != -1 ==> At(s, b, r))
            && (forall q: nat :: p <= q && (r == -1 || q < r) ==> !At(s, b, q))
    decreases |s| - p
  {
    if p + |b| <= |s| && !At(s, b, p) {
      FindIsFirst(s, b, p + 1);
    }
  }

  lemma FindIs(s: string, b: string, p: nat, r: nat)
    requires p <= r && At(s, b, r) && forall q: nat :: p <= q < r ==> !At(s, b, q)
    ensures Find(s, b, p) == r
  {
    FindIsFirst(s, b, p);
  }

  function FindChar(s: string, c: char, p: nat): (r: int)
    ensures r == -1 || (p <= r < |s| && s[r] == c)
    ensures forall q: nat :: p <= q < |s| && (r == -1 || q < r) ==> s[q] != c
    decreases |s| - p
  {
    if p >= |s| then -1
    else if s[p] == c then p
    else FindChar(s, c, p + 1)
  }

  // ----- The unbuffered parse ------------------------------------------------------------------

  datatype State = FindBoundary | EndBoundaryCR | EndBoundaryLF | StartHeaders | FinishHeader
                 | EndHeaders | StartData | EndData

  datatype Upload = Upload(headers: Headers, startOffset: int, endOffset: int)

  /** The uploads found from position `p` of the body on, in a given state. */
  function Resume(state: State, body: string, b: string, p: nat, line: string, headers: Headers, start: int)
    : seq<Upload>
    requires b != ""
    decreases |body| - p
  {
    if p >= |body| then []
    else
      match state
      case FindBoundary =>
        var q := Find(body, b, p);
        if q == -1 then [] else Resume(EndBoundaryCR, body, b, q + |b|, line, headers, start)
      case EndBoundaryCR =>
        if body[p] != '\r' then [] else Resume(EndBoundaryLF, body, b, p + 1, line, headers, start)
      case EndBoundaryLF =>
        if body[p] != '\n' then [] else Resume(StartHeaders, body, b, p + 1, line, headers, start)
      case StartHeaders =>
        if line == "" && body[p] == '\r' then Resume(EndHeaders, body, b, p + 1, line, headers, start)
        else
          var q := FindChar(body, '\r', p);
          if q == -1 then [] else Resume(FinishHeader, body, b, q + 1, line + body[p..q], headers, start)
      case FinishHeader =>
        if body[p] != '\n' then []
        else Resume(StartHeaders, body, b, p + 1, "", AddLine(headers, line), start)
      case EndHeaders =>
        if body[p] != '\n' then [] else Resume(StartData, body, b, p + 1, line, headers, start)
      case StartData => Resume(EndData, body, b, p + 1, line, headers, p)
      case EndData =>
        var q := Find(body, b, p);
        if q == -1 then []
        else [Upload(headers, start, q - 2)] + Resume(EndBoundaryCR, body, b, q + |b|, line, [], start)
  }

  /** Every part's data is followed by a delimiter and does not itself begin with one. */
  predicate Delimited(state: State, body: string, b: string, p: nat, line: string)
    requires b != ""
    decreases |body| - p
  {
    if p >= |body| then state != EndData
    else
      match state
      case FindBoundary =>
        var q := Find(body, b, p);
        q == -1 || Delimited(EndBoundaryCR, body, b, q + |b|, line)
      case EndBoundaryCR => body[p] != '\r' || Delimited(EndBoundaryLF, body, b, p + 1, line)
      case EndBoundaryLF => body[p] != '\n' || Delimited(StartHeaders, body, b, p + 1, line)
      case StartHeaders =>
        if line == "" && body[p] == '\r' then Delimited(EndHeaders, body, b, p + 1, line)
        else
          var q := FindChar(body, '\r', p);
          q == -1 || Delimited(FinishHeader, body, b, q + 1, line + body[p..q])
      case FinishHeader => body[p] != '\n' || Delimited(StartHeaders, body, b, p + 1, "")
      case EndHeaders => body[p] != '\n' || Delimited(StartData, body, b, p + 1, line)
      case StartData => !At(body, b, p) && Delimited(EndData, body, b, p + 1, line)
      case EndData =>
        var q := Find(body, b, p);
        q != -1 && Delimited(EndBoundaryCR, body, b, q + |b|, line)
  }

  // ----- Cutting the body ----------------------------------------------------------------------

  lemma SliceAt(body: string, b: string, lo: nat, hi: nat, q: nat)
    requires lo <= q && q + |b| <= hi <= |body|
    ensures At(body, b, q) == At(body[lo..hi], b, q - lo)
  {
    var slice := body[lo..hi];
    var i := q - lo;
    var there, here := slice[i..i + |b|], body[q..q + |b|];
    forall k | 0 <= k < |b|
      ensures there[k] == here[k]
    {
      assert there[k] == slice[i + k] && here[k] == body[q + k];
    }
  }

  /** Searching a stretch of the body. */
  lemma SliceFind(body: string, b: string, lo: nat, hi: nat)
    requires lo <= hi <= |body|
    ensures var r := Find(body[lo..hi], b, 0);
            && (r != -1 ==> Find(body, b, lo) == lo + r && lo + r + |b| <= hi)
            && (r == -1 ==> forall q: nat :: lo <= q && q + |b| <= hi ==> !At(body, b, q))
  {
    hide Find, At;
    var r := Find(body[lo..hi], b, 0);
    FindIsFirst(body[lo..hi], b, 0);
    NoneInSlice(body, b, lo, hi, if r == -1 then hi + 1 else lo + r);
    if r != -1 {
      SliceAt(body, b, lo, hi, lo + r);
      FindIs(body, b, lo, lo + r);
    }
  }

  /** A stretch without occurrences before some place has none there in the body. */
  lemma NoneInSlice(body: string, b: string, lo: nat, hi: nat, end: nat)
    requires lo <= end <= hi + 1 && hi <= |body|
    requires forall q: nat :: q < end - lo && q + |b| <= hi - lo ==> !At(body[lo..hi], b, q)
    ensures forall q: nat :: lo <= q < end && q + |b| <= hi ==> !At(body, b, q)
  {
    hide At;
    forall q: nat | lo <= q < end && q + |b| <= hi
      ensures !At(body, b, q)
    {
      SliceAt(body, b, lo, hi, q);
    }
  }

  lemma SliceFindChar(body: string, c: char, lo: nat, hi: nat)
    requires lo <= hi <= |body|
    ensures var r := FindChar(body[lo..hi], c, 0);
            && (r != -1 ==> FindChar(body, c, lo) == lo + r && lo + r < hi)
            && (r == -1 ==> forall q :: lo <= q < hi ==> body[q] != c)
  {
    var slice := body[lo..hi];
    assert forall q :: lo <= q < hi ==> body[q] == slice[q - lo];
  }

  lemma FindSame(s: string, b: string, p: nat, p': nat)
    requires forall q: nat :: (p <= q < p' || p' <= q < p) ==> !At(s, b, q)
    ensures Find(s, b, p) == Find(s, b, p')
  {
    FindIsFirst(s, b, p);
    FindIsFirst(s, b, p');
  }

  /** A header line may be read in pieces. */
  lemma HeaderCut(body: string, b: string, p: nat, e: nat, line: string, headers: Headers, start: int)
    requires b != "" && p < e <= |body| && !(line == "" && body[p] == '\r')
    requires forall q :: p <= q < e ==> body[q] != '\r'
    ensures Resume(StartHeaders, body, b, p, line, headers, start)
            == Resume(StartHeaders, body, b, e, line + body[p..e], headers, start)
    ensures Delimited(StartHeaders, body, b, p, line) == Delimited(StartHeaders, body, b, e, line + body[p..e])
  {
    var q := FindChar(body, '\r', p);
    assert q == FindChar(body, '\r', e);
    if q != -1 && e < |body| {
      assert (line + body[p..e]) + body[e..q] == line + body[p..q];
    }
  }

  /** Data may be searched again from any place with no delimiter in between. */
  lemma DataCut(body: string, b: string, p: nat, p': nat, line: string, headers: Headers, start: int)
    requires b != "" && p < |body| && p' < |body|
    requires forall q: nat :: (p <= q < p' || p' <= q < p) ==> !At(body, b, q)
    ensures Resume(EndData, body, b, p, line, headers, start) == Resume(EndData, body, b, p', line, headers, start)
    ensures Delimited(EndData, body, b, p, line) == Delimited(EndData, body, b, p', line)
  {
    FindSame(body, b, p, p');
  }

  // ----- A parse in progress -------------------------------------------------------------------

  /** The parser stands at position `p` of the body with `ret` behind it and `all` its goal. While
      data is being searched, no delimiter lies between the start of the data and `p`. */
  ghost predicate Reading(all: seq<Upload>, ret: seq<Upload>, state: State, body: string, b: string, p: nat,
                          line: string, headers: Headers, start: int)
    requires b != ""
  {
    && p <= |body|
    && ret + Resume(state, body, b, p, line, headers, start) == all
    && Delimited(state, body, b, p, line)
    && (state == StartData ==> p > 0 && body[p - 1] == '\n')
    && (state == EndData ==> InData(body, b, p, start))
  }

  ghost predicate InData(body: string, b: string, p: nat, start: int) {
    && 0 < start <= |body| && body[start - 1] == '\n'
    && forall q: nat :: start <= q < p ==> !At(body, b, q)
  }

  /** The states that look at one byte; `Stop` stands for giving up. */
  datatype Next = Stop | Go(state: State, headers: Headers, line: string, start: int)

  function Step(state: State, c: char, p: nat, line: string, headers: Headers, start: int): Next {
    match state
    case EndBoundaryCR => if c != '\r' then Stop else Go(EndBoundaryLF, headers, line, start)
    case EndBoundaryLF => if c != '\n' then Stop else Go(StartHeaders, headers, line, start)
    case FinishHeader => if c != '\n' then Stop else Go(StartHeaders, AddLine(headers, line), "", start)
    case EndHeaders => if c != '\n' then Stop else Go(StartData, headers, line, start)
    case StartData => Go(EndData, headers, line, p)
    case _ => Stop
  }

  lemma ReadByte(all: seq<Upload>, ret: seq<Upload>, state: State, body: string, b: string, p: nat,
                 line: string, headers: Headers, start: int)
    requires b != "" && p < |body| && Reading(all, ret, state, body, b, p, line, headers, start)
    requires state in {EndBoundaryCR, EndBoundaryLF, FinishHeader, EndHeaders, StartData}
    ensures match Step(state, body[p], p, line, headers, start)
            case Stop => ret == all
            case Go(state', headers', line', start') =>
              Reading(all, ret, state', body, b, p + 1, line', headers', start')
  {
  }

  lemma ReadHeaderLine(all: seq<Upload>, ret: seq<Upload>, body: string, b: string, p: nat, hi: nat,
                       line: string, headers: Headers, start: int)
    requires b != "" && p < hi <= |body| && Reading(all, ret, StartHeaders, body, b, p, line, headers, start)
    ensures if line == "" && body[p] == '\r' then Reading(all, ret, EndHeaders, body, b, p + 1, line, headers, start)
            else
              var r := FindChar(body[p..hi], '\r', 0);
              if r == -1 then Reading(all, ret, StartHeaders, body, b, hi, line + body[p..hi], headers, start)
              else Reading(all, ret, FinishHeader, body, b, p + r + 1, line + body[p..p + r], headers, start)
  {
    SliceFindChar(body, '\r', p, hi);
    if !(line == "" && body[p] == '\r') && FindChar(body[p..hi], '\r', 0) == -1 {
      HeaderCut(body, b, p, hi, line, headers, start);
    }
  }

  /** A delimiter found in data ends an upload. */
  lemma ReadDelimiter(all: seq<Upload>, ret: seq<Upload>, body: string, b: string, p: nat, q: nat,
                      line: string, headers: Headers, start: int)
    requires b != "" && p < |body| && q == Find(body, b, p)
    requires Reading(all, ret, EndData, body, b, p, line, headers, start)
    ensures Reading(all, ret + [Upload(headers, start, q - 2)], EndBoundaryCR, body, b, q + |b|, line, [], start)
  {
    hide Find, Resume, Delimited, At, InData;
    DelimitedData(body, b, p, line, headers, start);
    Regroup(ret, [Upload(headers, start, q - 2)], Resume(EndBoundaryCR, body, b, q + |b|, line, [], start));
  }

  /** Data whose delimiter is not in sight go on behind the bytes at hand. */
  lemma MoreToCome(body: string, b: string, p: nat, hi: nat, line: string)
    requires b != "" && p < hi <= |body| && Delimited(EndData, body, b, p, line) && Find(body[p..hi], b, 0) == -1
    ensures hi < |body|
  {
    hide Find, At, Delimited;
    SliceFind(body, b, p, hi);
    DelimitedData(body, b, p, line, [], 0);
  }

  /** If none is found, the search goes on from `keep`, the first place where one could still begin. */
  lemma ReadData(all: seq<Upload>, ret: seq<Upload>, body: string, b: string, p: nat, hi: nat, keep: nat,
                 line: string, headers: Headers, start: int)
    requires b != "" && '\n' !in b && p < hi <= |body| && start <= hi && keep + |b| == hi + 1
    requires Reading(all, ret, EndData, body, b, p, line, headers, start)
    requires Find(body[p..hi], b, 0) == -1
    ensures hi < |body| && Reading(all, ret, EndData, body, b, keep, line, headers, start)
  {
    SliceFind(body, b, p, hi);
    DelimitedData(body, b, p, line, headers, start);
    NoneBetween(body, b, p, hi, keep, start);
    hide Find, Resume, Delimited, At, InData;
    DataCut(body, b, p, keep, line, headers, start);
  }

  lemma Regroup(a: seq<Upload>, b: seq<Upload>, c: seq<Upload>)
    ensures a + (b + c) == (a + b) + c
  {
  }

  lemma DelimitedData(body: string, b: string, p: nat, line: string, headers: Headers, start: int)
    requires b != "" && p < |body| && Delimited(EndData, body, b, p, line)
    ensures var q := Find(body, b, p);
            && q != -1 && q + |b| <= |body| && At(body, b, q)
            && Delimited(EndBoundaryCR, body, b, q + |b|, line)
            && Resume(EndData, body, b, p, line, headers, start)
               == [Upload(headers, start, q - 2)] + Resume(EndBoundaryCR, body, b, q + |b|, line, [], start)
  {
    FindIsFirst(body, b, p);
  }

  lemma Covers(s: string, b: string, q: nat, n: nat)
    requires At(s, b, q) && q <= n < q + |b|
    ensures s[n] in b
  {
    assert s[q..q + |b|][n - q] == s[n];
  }

  lemma NoneBetween(body: string, b: string, p: nat, hi: nat, keep: nat, start: int)
    requires b != "" && '\n' !in b && p < hi <= |body| && start <= hi && keep + |b| == hi + 1
    requires InData(body, b, p, start)
    requires forall q: nat :: p <= q && q + |b| <= hi ==> !At(body, b, q)
    ensures forall q: nat :: (keep <= q < p || p <= q < keep) ==> !At(body, b, q)
    ensures InData(body, b, keep, start)
  {
    forall q: nat | keep <= q < p
      ensures !At(body, b, q)
    {
      if q < start && At(body, b, q) {
        Covers(body, b, q, start - 1);
      }
    }
  }

  lemma ReadFirst(all: seq<Upload>, ret: seq<Upload>, body: string, b: string, hi: nat)
    requires b != "" && |b| <= hi <= |body| && At(body, b, 0)
    requires Reading(all, ret, FindBoundary, body, b, 0, "", [], 0)
    ensures Find(body[0..hi], b, 0) == 0
    ensures Reading(all, ret, EndBoundaryCR, body, b, |b|, "", [], 0)
  {
    SliceFind(body, b, 0, hi);
    SliceAt(body, b, 0, hi, 0);
    FindIsFirst(body, b, 0);
    FindIsFirst(body[0..hi], b, 0);
  }
}
