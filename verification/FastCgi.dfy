/** FastCGI records and name-value pairs (FastCGI 1.0, sections 3.3 and 3.4). */
module FastCgi {
  import opened Basics

  type Bytes = seq<Byte>

  const STDOUT: Byte := 6

  // ----- Records -------------------------------------------------------------------------------

  /** `FCGI_ALIGN`, kept in sixteen bits. */
  function Aligned(n: nat): nat {
    (n + 7) / 8 * 8 % 65536
  }

  function Padding(n: nat): (p: nat)
    requires n <= 65535
    ensures p < 8
    ensures n <= 65528 ==> (n + p) % 8 == 0
    ensures n > 65528 ==> p == 0
  {
    if Aligned(n) > n then Aligned(n) - n else 0
  }

  function Zeros(n: nat): Bytes {
    seq(n, i => 0)
  }

  function Record(streamId: nat, content: Bytes): Bytes
    requires streamId < 65536 && |content| <= 65535
  {
    [1, STDOUT, streamId / 256, streamId % 256, |content| / 256, |content| % 256, Padding(|content|), 0]
    + (content + Zeros(Padding(|content|)))
  }

  /** The data cut into records, each as long as a record may be. */
  function Records(streamId: nat, data: Bytes): Bytes
    requires streamId < 65536
  {
    if |data| <= 65535 then Record(streamId, data)
    else Record(streamId, data[..65535]) + Records(streamId, data[65535..])
  }

  /** `ProtoRequestFastCGI::doWrite` with writes that succeed; it fails on nothing to write. */
  method DoWrite(streamId: nat, data: Bytes) returns (out: Bytes, ret: int)
    requires streamId < 65536
    ensures data != [] ==> ret == |data| && out == Records(streamId, data)
    ensures data == [] ==> ret == -1
  {
    hide Record, Padding;
    out := [];
    var writePos := 0;
    if |data| == 0 {
      // The header of an empty record is out when the empty write is taken for an error.
      return Record(streamId, data), -1;
    }
    assert data[0..] == data;
    while true
      invariant writePos < |data| && out + Records(streamId, data[writePos..]) == Records(streamId, data)
      decreases |data| - writePos
    {
      var len := if |data| - writePos < 0xffff then |data| - writePos else 0xffff;
      ghost var rest := data[writePos..];
      assert rest[..len] == data[writePos..writePos + len] && rest[len..] == data[writePos + len..];
      ghost var before := out;
      out := out + Record(streamId, data[writePos..writePos + len]);
      writePos := writePos + len;
      if writePos == |data| {
        assert rest == rest[..len];
        return out, writePos;
      }
      assert before + Records(streamId, rest) == out + Records(streamId, data[writePos..]);
    }
  }

  /** The arithmetic of `processPacket`: the content of the first record, and what follows it. */
  function ReadRecord(src: Bytes): Option<(Bytes, Bytes)> {
    if |src| < 8 then None
    else
      var len: nat := src[5] as nat + src[4] as nat * 256;
      var all: nat := 8 + len + src[6] as nat;
      if |src| < all then None else Some((src[8..8 + len], src[all..]))
  }

  /** A record of version 1 with output of this stream (FastCGI 1.0, section 3.3). */
  predicate IsOutput(src: Bytes, streamId: nat) {
    |src| >= 8 && src[0] == 1 && src[1] == 6 && src[2] as nat * 256 + src[3] as nat == streamId && src[7] == 0
  }

  /** The contents of all the records of a stream, one after the other; there must be no others. */
  function ReadRecords(src: Bytes, streamId: nat): Option<Bytes>
    decreases |src|
  {
    if src == [] then Some([])
    else if !IsOutput(src, streamId) then None
    else
      match ReadRecord(src)
      case None => None
      case Some((content, rest)) =>
        match ReadRecords(rest, streamId) case None => None case Some(more) => Some(content + more)
  }

  lemma RecordRead(streamId: nat, content: Bytes, rest: Bytes)
    requires streamId < 65536 && |content| <= 65535
    ensures IsOutput(Record(streamId, content) + rest, streamId)
    ensures ReadRecord(Record(streamId, content) + rest) == Some((content, rest))
    ensures |Record(streamId, content)| % 8 == 0 || |content| > 65528
  {
    hide Padding;
    var p := Padding(|content|);
    var src := Record(streamId, content) + rest;
    assert src[5] as nat + src[4] as nat * 256 == |content| && src[6] == p;
    assert src[8..8 + |content|] == content && src[8 + |content| + p..] == rest;
    assert |content| <= 65528 ==> (8 + |content| + p) % 8 == 0;
  }

  /** The records of any data read back as the data. */
  lemma {:induction false} WrittenIsRead(streamId: nat, data: Bytes)
    requires streamId < 65536
    ensures ReadRecords(Records(streamId, data), streamId) == Some(data)
    decreases |data|
  {
    hide Record, ReadRecord, IsOutput;
    var first := if |data| <= 65535 then data else data[..65535];
    var rest := if |data| <= 65535 then [] else Records(streamId, data[65535..]);
    assert Records(streamId, data) == Record(streamId, first) + rest;
    RecordRead(streamId, first, rest);
    RecordIsNotEmpty(streamId, first);
    if |data| > 65535 {
      WrittenIsRead(streamId, data[65535..]);
      assert data == data[..65535] + data[65535..];
    } else {
      assert data + [] == data;
    }
  }

  lemma RecordIsNotEmpty(streamId: nat, content: Bytes)
    requires streamId < 65536 && |content| <= 65535
    ensures |Record(streamId, content)| >= 8
  {
  }

  // ----- Name-value pairs ----------------------------------------------------------------------

  datatype Pair = Pair(name: Bytes, value: Bytes)

  /** A length in one byte, or in four with the highest bit set. */
  function Length(n: nat): Bytes
    requires n < 0x8000_0000
  {
    if n < 128 then [n] else [128 + n / 0x100_0000, n / 0x1_0000 % 256, n / 256 % 256, n % 256]
  }

  predicate Short(p: Pair) {
    |p.name| <= 65535 && |p.value| <= 65535
  }

  function EncodePair(p: Pair): Bytes
    requires Short(p)
  {
    Length(|p.name|) + (Length(|p.value|) + (p.name + p.value))
  }

  function EncodePairs(pairs: seq<Pair>): Bytes
    requires forall i :: 0 <= i < |pairs| ==> Short(pairs[i])
  {
    if pairs == [] then [] else EncodePair(pairs[0]) + EncodePairs(pairs[1..])
  }

  function BigEndian(buf: Bytes): (n: nat)
    requires |buf| >= 4
    ensures buf[0] > 127 ==> n >= 0x8000_0000
  {
    buf[0] as nat * 0x100_0000 + buf[1] as nat * 0x1_0000 + buf[2] as nat * 256 + buf[3] as nat
  }

  /** A length and where it ends; there must be a byte after it. */
  function ReadLength(buf: Bytes): Option<(nat, Bytes)>
    requires buf != []
  {
    if buf[0] > 127 then
      if |buf| <= 4 then None
      else Some((BigEndian(buf) - 0x8000_0000, buf[4..]))
    else if |buf| <= 1 then None
    else Some((buf[0], buf[1..]))
  }

  /** The first pair and what follows it. */
  function ReadPair(buf: Bytes): (r: Option<(Pair, Bytes)>)
    requires buf != []
    ensures r.Some? ==> |r.value.1| < |buf|
  {
    match ReadLength(buf)
    case None => None
    case Some((nameLen, buf1)) =>
      match ReadLength(buf1)
      case None => None
      case Some((valueLen, buf2)) =>
        if nameLen + valueLen > |buf2| || nameLen > 0xffff || valueLen > 0xffff then None
        else Some((Pair(buf2[..nameLen], buf2[nameLen..nameLen + valueLen]), buf2[nameLen + valueLen..]))
  }

  /** What `addHeader` takes of the record buffer for a pair. */
  function Need(p: Pair): nat {
    |p.name| + |p.value| + 4
  }

  /** `addHeader` takes a pair while the record buffer has more room, of `size` bytes with `used` taken. Its
      answer is kept in sixteen bits, and 0 stands for failure. */
  predicate Room(p: Pair, used: nat, size: nat) {
    used + Need(p) < size && Need(p) % 65536 != 0
  }

  /** What is taken afterwards, kept in sixteen bits. */
  function UsedAfter(p: Pair, used: nat): nat {
    (used + Need(p)) % 65536
  }

  /** The pairs of a record's content. */
  function ReadPairs(buf: Bytes, used: nat, size: nat): Option<seq<Pair>>
    decreases |buf|
  {
    if buf == [] then Some([])
    else
      match ReadPair(buf)
      case None => None
      case Some((p, rest)) =>
        if Room(p, used, size) then After([p], ReadPairs(rest, UsedAfter(p, used), size)) else None
  }

  /** There is room for all of them, one after the other. */
  predicate Fits(pairs: seq<Pair>, used: nat, size: nat) {
    pairs == [] || (Room(pairs[0], used, size) && Fits(pairs[1..], UsedAfter(pairs[0], used), size))
  }

  function NameBytes(pairs: seq<Pair>): nat {
    if pairs == [] then 0 else |pairs[0].name| + NameBytes(pairs[1..])
  }

  function ValueBytes(pairs: seq<Pair>): nat {
    if pairs == [] then 0 else |pairs[0].value| + ValueBytes(pairs[1..])
  }

  /** All names, all values, and 4 bytes for each pair. */
  function TotalNeed(pairs: seq<Pair>): nat {
    NameBytes(pairs) + ValueBytes(pairs) + 4 * |pairs|
  }

  /** In a record buffer of at most 65536 bytes nothing wraps around: all pairs fit if and only if there
      is more room than they need together. */
  lemma {:induction false} FitsIsTotal(pairs: seq<Pair>, used: nat, size: nat)
    requires size <= 65536 && pairs != []
    ensures Fits(pairs, used, size) <==> used + TotalNeed(pairs) < size
  {
    var p := pairs[0];
    assert TotalNeed(pairs) == Need(p) + TotalNeed(pairs[1..]);
    if |pairs| == 1 {
      assert pairs[1..] == [];
    } else if used + Need(p) < size {
      FitsIsTotal(pairs[1..], UsedAfter(p, used), size);
    }
  }

  function After(found: seq<Pair>, r: Option<seq<Pair>>): Option<seq<Pair>> {
    match r case None => None case Some(more) => Some(found + more)
  }

  lemma AfterTwice(a: seq<Pair>, b: seq<Pair>, r: Option<seq<Pair>>)
    ensures After(a, After(b, r)) == After(a + b, r) && After([], r) == r
  {
    if r.Some? {
      assert a + (b + r.value) == (a + b) + r.value && [] + r.value == r.value;
    }
  }

  /** `parseHeaders`, the pairs handed on in order; `pktsize` is what is taken of the record buffer. */
  method ParseHeaders(buf: Bytes, used: nat, size: nat) returns (pairs: Option<seq<Pair>>, pktsize: nat)
    requires used < 65536
    ensures pairs == ReadPairs(buf, used, size)
    ensures pairs.Some? ==> pktsize == (used + TotalNeed(pairs.value)) % 65536
  {
    hide ReadPair, ReadPairs, Room, TotalNeed;
    var j := 0;
    var found: seq<Pair> := [];
    pktsize := used;
    assert buf[0..] == buf;
    NothingFound(buf, used, size);
    while j < |buf|
      invariant j <= |buf| && ReadPairs(buf, used, size) == After(found, ReadPairs(buf[j..], pktsize, size))
      invariant pktsize == (used + TotalNeed(found)) % 65536
    {
      var p, next := ParsePair(buf, j);
      OneRead(buf[j..], pktsize, size);
      if p.None? {
        return None, pktsize;
      }
      if !Room(p.value, pktsize, size) {
        return None, pktsize;
      }
      AfterTwice(found, [p.value], ReadPairs(buf[next..], UsedAfter(p.value, pktsize), size));
      OneNeeded(found, p.value, used);
      pktsize := (pktsize + Need(p.value)) % 65536;
      found := found + [p.value];
      j := next;
    }
    assert buf[j..] == [] && found + [] == found;
    NothingFound([], pktsize, size);
    pairs := Some(found);
  }

  lemma NothingFound(buf: Bytes, used: nat, size: nat)
    ensures ReadPairs(buf, used, size) == After([], ReadPairs(buf, used, size))
    ensures ReadPairs([], used, size) == Some([]) && TotalNeed([]) == 0
  {
    AfterTwice([], [], ReadPairs(buf, used, size));
  }

  lemma OneRead(buf: Bytes, used: nat, size: nat)
    requires buf != []
    ensures var r := ReadPair(buf);
            ReadPairs(buf, used, size) ==
            if r.None? || !Room(r.value.0, used, size) then None
            else After([r.value.0], ReadPairs(r.value.1, UsedAfter(r.value.0, used), size))
  {
  }

  lemma OneNeeded(found: seq<Pair>, p: Pair, used: nat)
    ensures (used + TotalNeed(found + [p])) % 65536 == ((used + TotalNeed(found)) % 65536 + Need(p)) % 65536
  {
    TotalMore(found, p);
    var total := used + TotalNeed(found);
    assert total == total / 65536 * 65536 + total % 65536;
  }

  lemma {:induction false} TotalMore(found: seq<Pair>, p: Pair)
    ensures TotalNeed(found + [p]) == TotalNeed(found) + Need(p)
  {
    if found == [] {
      assert [] + [p] == [p] && [p][1..] == [];
    } else {
      TotalMore(found[1..], p);
      assert (found + [p])[1..] == found[1..] + [p];
    }
  }

  /** One turn of the loop. */
  method ParsePair(buf: Bytes, from: nat) returns (p: Option<Pair>, next: nat)
    requires from < |buf|
    ensures p.None? ==> ReadPair(buf[from..]) == None
    ensures p.Some? ==> from < next <= |buf| && ReadPair(buf[from..]) == Some((p.value, buf[next..]))
  {
    hide ReadLength;
    next := from;
    var k, v;
    var name := ReadLength(buf[next..]);
    if name.None? {
      return None, next;
    }
    LengthAt(buf, from);
    k, next := name.value.0, |buf| - |name.value.1|;
    var value := ReadLength(buf[next..]);
    if value.None? {
      return None, next;
    }
    LengthAt(buf, next);
    v, next := value.value.0, |buf| - |value.value.1|;
    if next + (k + v) > |buf| || k > 0xffff || v > 0xffff {
      return None, next;
    }
    Slices(buf, next, k, v);
    p := Some(Pair(buf[next..next + k], buf[next + k..next + k + v]));
    next := next + k + v;
  }

  lemma Slices(buf: Bytes, j: nat, k: nat, v: nat)
    requires j + k + v <= |buf|
    ensures buf[j..][..k] == buf[j..j + k] && buf[j..][k..k + v] == buf[j + k..j + k + v]
    ensures buf[j..][k + v..] == buf[j + k + v..]
  {
  }

  /** A length takes bytes off the front. */
  lemma LengthAt(buf: Bytes, j: nat)
    requires j < |buf| && ReadLength(buf[j..]).Some?
    ensures var rest := ReadLength(buf[j..]).value.1;
            0 < |rest| < |buf| - j && buf[|buf| - |rest|..] == rest
  {
  }

  lemma LengthRead(n: nat, rest: Bytes)
    requires n < 0x8000_0000
    ensures ReadLength(Length(n) + rest) == if rest == [] then None else Some((n, rest))
    ensures Length(n) != []
  {
    if n < 128 {
      assert ([n] + rest)[1..] == rest;
    } else {
      assert (Length(n) + rest)[4..] == rest;
      FourBytes(n);
    }
  }

  lemma FourBytes(n: nat)
    requires n < 0x8000_0000
    ensures n / 0x100_0000 * 0x100_0000 + n / 0x1_0000 % 256 * 0x1_0000 + n / 256 % 256 * 256 + n % 256 == n
  {
    var a := n / 256;
    var b := a / 256;
    assert n / 0x1_0000 == b && n / 0x100_0000 == b / 256;
    assert a == b * 256 + a % 256 && b == b / 256 * 256 + b % 256;
  }

  /** Encoded pairs are read back in order if and only if the last of them is not empty and the record
      buffer has room for them. */
  lemma {:induction false} PairsRead(pairs: seq<Pair>, used: nat, size: nat)
    requires forall i :: 0 <= i < |pairs| ==> Short(pairs[i])
    ensures ReadPairs(EncodePairs(pairs), used, size) == Some(pairs)
            <==> (pairs == [] || pairs[|pairs| - 1] != Pair([], [])) && Fits(pairs, used, size)
    ensures ReadPairs(EncodePairs(pairs), used, size) != Some(pairs)
            ==> ReadPairs(EncodePairs(pairs), used, size) == None
    decreases |pairs|
  {
    hide ReadPair, EncodePair, ReadPairs, EncodePairs, Room, UsedAfter;
    if pairs == [] {
      NoPairs(used, size);
    } else {
      var p, rest := pairs[0], EncodePairs(pairs[1..]);
      PairsRead(pairs[1..], UsedAfter(p, used), size);
      PairRead(p, rest);
      PairsStep(pairs);
      OneRead(EncodePairs(pairs), used, size);
      AfterOne(p, pairs[1..]);
      assert pairs == [p] + pairs[1..];
    }
  }

  lemma NoPairs(used: nat, size: nat)
    ensures EncodePairs([]) == [] && ReadPairs([], used, size) == Some([])
  {
  }

  lemma AfterOne(p: Pair, more: seq<Pair>)
    ensures After([p], Some(more)) == Some([p] + more) && After([p], None) == None
  {
  }

  lemma PairsStep(pairs: seq<Pair>)
    requires pairs != [] && forall i :: 0 <= i < |pairs| ==> Short(pairs[i])
    ensures EncodePairs(pairs) == EncodePair(pairs[0]) + EncodePairs(pairs[1..]) && EncodePairs(pairs) != []
    ensures EncodePairs(pairs[1..]) == [] <==> |pairs| == 1
  {
    hide ReadPair, EncodePair;
    PairIsNotEmpty(pairs[0]);
    if |pairs| > 1 {
      PairIsNotEmpty(pairs[1]);
    }
  }

  lemma PairIsNotEmpty(p: Pair)
    requires Short(p)
    ensures EncodePair(p) != []
  {
  }

  lemma PairRead(p: Pair, rest: Bytes)
    requires Short(p)
    ensures ReadPair(EncodePair(p) + rest) == if p == Pair([], []) && rest == [] then None else Some((p, rest))
  {
    hide ReadLength, Length;
    var data := p.name + p.value + rest;
    assert EncodePair(p) + rest == Length(|p.name|) + (Length(|p.value|) + data);
    LengthRead(|p.name|, Length(|p.value|) + data);
    LengthRead(|p.value|, data);
    assert data[..|p.name|] == p.name && data[|p.name|..|p.name| + |p.value|] == p.value;
    assert data[|p.name| + |p.value|..] == rest;
  }
}
