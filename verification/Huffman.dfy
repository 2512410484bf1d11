/** Huffman strings of HTTP/2 headers: decoded four bits at a time by an automaton whose states are the
    inner nodes of the code tree, against the code itself, bit by bit. */
module Huffman {
  import opened Basics
  import opened HuffmanTable

  type Bits = seq<bool>

  /** The bits read since the last symbol, as a number of so many bits. */
  datatype Node = Node(bits: nat, value: nat)

  const ROOT := Node(0, 0)

  datatype Result = Failed | Decoded(node: Node, text: seq<Byte>)

  function Power(n: nat): (p: nat)
    ensures p > 0
  {
    if n == 0 then 1 else 2 * Power(n - 1)
  }

  /** The lowest n bits of a number, highest first. */
  function Low(n: nat, value: nat): (r: Bits)
    ensures |r| == n
  {
    if n == 0 then [] else Low(n - 1, value / 2) + [value % 2 == 1]
  }

  function Ones(n: nat): Bits {
    seq(n, i => true)
  }

  function Code(s: nat): Bits {
    Low(HuffSym(s).bits, HuffSym(s).code)
  }

  /** A string in the code of RFC 7541, section 5.2. */
  function EncodeBits(text: seq<Byte>): Bits {
    if text == [] then [] else Code(text[0]) + EncodeBits(text[1..])
  }

  function BitsOf(src: seq<Byte>): Bits {
    if src == [] then [] else Low(8, src[0]) + BitsOf(src[1..])
  }

  /** The bytes are the code of the text, padded with fewer than eight ones. */
  predicate Encodes(src: seq<Byte>, text: seq<Byte>, padding: nat) {
    padding < 8 && BitsOf(src) == EncodeBits(text) + Ones(padding)
  }

  // ----- Bit by bit ----------------------------------------------------------------------------

  predicate Leaf(n: Node) {
    n.bits <= 30 && First(n.bits) <= n.value < First(n.bits) + Total(n.bits)
  }

  /** A proper prefix of some code. */
  predicate Inner(n: Node) {
    n.bits < 30 && First(n.bits) + Total(n.bits) <= n.value < Power(n.bits)
  }

  function Child(n: Node, bit: bool): Node {
    Node(n.bits + 1, 2 * n.value + if bit then 1 else 0)
  }

  function SymbolAt(n: Node): (s: nat)
    requires Leaf(n)
    ensures s <= EOS && HuffSym(s) == Sym(n.bits, n.value)
  {
    AllCoded(n.bits, n.value - First(n.bits));
    Ranked(n.bits, n.value - First(n.bits))
  }

  /** Decoding from a node; the end-of-string symbol is an error. */
  function Feed(n: Node, bits: Bits): Result
    decreases |bits|
  {
    if bits == [] then Decoded(n, [])
    else if !Leaf(Child(n, bits[0])) then Feed(Child(n, bits[0]), bits[1..])
    else
      var s := SymbolAt(Child(n, bits[0]));
      if s == EOS then Failed else Prepend([s], Feed(ROOT, bits[1..]))
  }

  function Prepend(text: seq<Byte>, r: Result): Result {
    match r case Failed => Failed case Decoded(n, t) => Decoded(n, text + t)
  }

  function Then(r: Result, bits: Bits): Result {
    match r case Failed => Failed case Decoded(n, t) => Prepend(t, Feed(n, bits))
  }

  // ----- Four bits at a time -------------------------------------------------------------------

  /** An entry of the decoding table: the next state, whether a string may end there, and the symbol
      completed on the way, if any. */
  datatype HuffDecode = HuffDecode(state: Node, accepted: bool, sym: Option<Byte>, fail: bool)

  /** `huff_decode_table`. */
  function HuffDecodeTable(state: Node, nibble: nat): HuffDecode {
    match Feed(state, Low(4, nibble))
    case Failed => HuffDecode(ROOT, false, None, true)
    case Decoded(n, t) => HuffDecode(n, MayEnd(n), if t == [] then None else Some(t[0]), false)
  }

  /** Up to seven ones may follow the last symbol. */
  predicate MayEnd(n: Node) {
    n.bits <= 7 && n.value == Power(n.bits) - 1
  }

  // ----- The code is a complete prefix code ----------------------------------------------------

  /** Below an inner node there is an inner node or a symbol. */
  lemma InnerChild(n: Node, bit: bool)
    requires Inner(n)
    ensures Leaf(Child(n, bit)) || Inner(Child(n, bit))
  {
    FirstIsNext(n.bits);
    if n.bits == 29 {
      TopPower();
    }
  }

  lemma TopPower()
    ensures First(30) + Total(30) == Power(30)
  {
    assert Power(10) == 1024;
    assert Power(20) == 1024 * Power(10);
    assert Power(30) == 1024 * Power(20);
  }

  /** Above an inner node or a symbol there are inner nodes only. */
  lemma InnerParent(n: Node)
    requires n.bits > 0 && n.value < Power(n.bits) && (Inner(n) || Leaf(n))
    ensures Inner(Node(n.bits - 1, n.value / 2))
  {
    FirstIsNext(n.bits - 1);
  }

  lemma {:induction false} FeedAppend(n: Node, a: Bits, b: Bits)
    ensures Feed(n, a + b) == Then(Feed(n, a), b)
    decreases |a|
  {
    hide Feed, Leaf, SymbolAt;
    if a == [] {
      assert a + b == b;
      FeedNone(n);
      PrependNone(Feed(n, b));
    } else {
      assert (a + b)[1..] == a[1..] + b;
      var child := Child(n, a[0]);
      FeedStep(n, a);
      FeedStep(n, a + b);
      if Leaf(child) {
        var s := SymbolAt(child);
        FeedAppend(ROOT, a[1..], b);
        if s != EOS && Feed(ROOT, a[1..]).Decoded? {
          var r := Feed(ROOT, a[1..]);
          PrependTwice([s], r.text, Feed(r.node, b));
        }
      } else {
        FeedAppend(child, a[1..], b);
      }
    }
  }

  lemma FeedStep(n: Node, bits: Bits)
    requires bits != []
    ensures var child := Child(n, bits[0]);
            Feed(n, bits) == if !Leaf(child) then Feed(child, bits[1..])
                             else if SymbolAt(child) == EOS then Failed
                             else Prepend([SymbolAt(child)], Feed(ROOT, bits[1..]))
  {
  }

  /** No symbol has fewer than five bits, so four bits complete at most one. */
  lemma {:induction false} NoneSoSoon(n: Node, bits: Bits)
    requires n.bits + |bits| < 5
    ensures Feed(n, bits).Decoded? && Feed(n, bits).text == []
    decreases |bits|
  {
    if bits == [] {
    } else {
      NoneSoSoon(Child(n, bits[0]), bits[1..]);
    }
  }

  lemma {:induction false} AtMostOne(n: Node, bits: Bits)
    requires |bits| <= 4
    ensures Feed(n, bits).Decoded? ==> |Feed(n, bits).text| <= 1
    decreases |bits|
  {
    if bits == [] {
    } else {
      if Leaf(Child(n, bits[0])) {
        NoneSoSoon(ROOT, bits[1..]);
      } else {
        AtMostOne(Child(n, bits[0]), bits[1..]);
      }
    }
  }

  /** Decoding stays within the tree. */
  lemma {:induction false} StaysInner(n: Node, bits: Bits)
    requires Inner(n)
    ensures Feed(n, bits).Decoded? ==> Inner(Feed(n, bits).node)
    decreases |bits|
  {
    if bits == [] {
    } else {
      InnerChild(n, bits[0]);
      StaysInner(if Leaf(Child(n, bits[0])) then ROOT else Child(n, bits[0]), bits[1..]);
    }
  }

  lemma FeedNone(n: Node)
    ensures Feed(n, []) == Decoded(n, [])
  {
  }

  lemma FeedOne(n: Node, bit: bool)
    ensures var child := Child(n, bit);
            Feed(n, [bit]) == if !Leaf(child) then Decoded(child, [])
                              else if SymbolAt(child) == EOS then Failed else Decoded(ROOT, [SymbolAt(child)])
  {
  }

  /** The bits of an inner node lead to it. */
  lemma {:induction false} Reached(n: Node)
    requires Inner(n)
    ensures Feed(ROOT, Low(n.bits, n.value)) == Decoded(n, [])
    decreases n.bits
  {
    hide Feed;
    if n.bits == 0 {
      FeedNone(ROOT);
      assert n == ROOT && Low(0, n.value) == [];
    } else {
      var up := Node(n.bits - 1, n.value / 2);
      InnerParent(n);
      Reached(up);
      FeedAppend(ROOT, Low(up.bits, up.value), [n.value % 2 == 1]);
      FeedOne(up, n.value % 2 == 1);
      assert Child(up, n.value % 2 == 1) == n;
    }
  }

  /** The bits of a code yield its symbol. */
  lemma CodeRead(s: nat)
    requires s <= EOS
    ensures Feed(ROOT, Code(s)) == if s == EOS then Failed else Decoded(ROOT, [s])
  {
    hide Feed, HuffSym, First, Total, SymbolAt;
    var h := HuffSym(s);
    var n := PlaceOf(s);
    var up := Node(h.bits - 1, h.code / 2);
    Reached(up);
    FeedAppend(ROOT, Low(up.bits, up.value), [h.code % 2 == 1]);
    FeedOne(up, h.code % 2 == 1);
    assert Child(up, h.code % 2 == 1) == n;
  }

  lemma PlaceOf(s: nat) returns (n: Node)
    requires s <= EOS
    ensures n == Node(HuffSym(s).bits, HuffSym(s).code) && n.bits > 0
    ensures Leaf(n) && SymbolAt(n) == s && Inner(Node(n.bits - 1, n.value / 2))
  {
    hide HuffSym, First, Total, Ranked;
    AllPlaced(s);
    n := Node(HuffSym(s).bits, HuffSym(s).code);
    LeafBound(n);
    InnerParent(n);
  }

  lemma LeafBound(n: Node)
    requires Leaf(n)
    ensures n.value < Power(n.bits)
  {
    EndBound(n.bits);
  }

  lemma EndBound(bits: nat)
    requires bits <= 30
    ensures First(bits) + Total(bits) <= Power(bits)
  {
    TopPower();
    if bits < 30 {
      EndBoundBelow(bits, 30);
    }
  }

  lemma {:induction false} EndBoundBelow(bits: nat, top: nat)
    requires bits <= top <= 30 && First(top) + Total(top) <= Power(top)
    ensures First(bits) + Total(bits) <= Power(bits)
    decreases top
  {
    if bits < top {
      FirstIsNext(top - 1);
      EndBoundBelow(bits, top - 1);
    }
  }

  // ----- Decoding inverts encoding -------------------------------------------------------------

  lemma {:induction false} EncodedRead(text: seq<Byte>, rest: Bits)
    ensures Feed(ROOT, EncodeBits(text) + rest) == Prepend(text, Feed(ROOT, rest))
  {
    hide Feed, Code;
    if text == [] {
      assert EncodeBits(text) + rest == rest;
      PrependNone(Feed(ROOT, rest));
    } else {
      var more := EncodeBits(text[1..]) + rest;
      assert EncodeBits(text) + rest == Code(text[0]) + more;
      FeedAppend(ROOT, Code(text[0]), more);
      CodeRead(text[0]);
      EncodedRead(text[1..], rest);
      PrependTwice([text[0]], text[1..], Feed(ROOT, rest));
      assert [text[0]] + text[1..] == text;
    }
  }

  lemma PrependNone(r: Result)
    ensures Prepend([], r) == r
  {
    assert r.Decoded? ==> [] + r.text == r.text;
  }

  lemma PrependTwice(a: seq<Byte>, b: seq<Byte>, r: Result)
    ensures Prepend(a, Prepend(b, r)) == Prepend(a + b, r)
  {
    assert r.Decoded? ==> a + (b + r.text) == (a + b) + r.text;
  }

  /** What was decoded, encoded again, and the bits still open, are the bits that were read. */
  lemma {:induction false} DecodedIsEncoded(n: Node, bits: Bits)
    requires Feed(n, bits).Decoded?
    ensures var r := Feed(n, bits);
            Low(n.bits, n.value) + bits == EncodeBits(r.text) + Low(r.node.bits, r.node.value)
    decreases |bits|
  {
    hide Low, SymbolAt;
    if bits == [] {
      NothingRead(Low(n.bits, n.value));
    } else {
      var child := Child(n, bits[0]);
      LowChild(n, bits[0]);
      Onward(Low(n.bits, n.value), bits);
      if Leaf(child) {
        var r := Feed(ROOT, bits[1..]);
        var s := SymbolAt(child);
        DecodedIsEncoded(ROOT, bits[1..]);
        LowNone(bits[1..]);
        EncodeOne(s, r.text, Low(r.node.bits, r.node.value));
      } else {
        DecodedIsEncoded(child, bits[1..]);
      }
    }
  }

  lemma NothingRead(open: Bits)
    ensures open + [] == EncodeBits([]) + open
  {
  }

  lemma Onward(open: Bits, bits: Bits)
    requires bits != []
    ensures open + bits == (open + [bits[0]]) + bits[1..]
  {
  }

  lemma EncodeOne(s: Byte, text: seq<Byte>, open: Bits)
    ensures EncodeBits([s] + text) + open == Code(s) + (EncodeBits(text) + open)
  {
    hide Code;
    assert ([s] + text)[1..] == text;
  }

  lemma LowChild(n: Node, bit: bool)
    ensures Low(n.bits + 1, Child(n, bit).value) == Low(n.bits, n.value) + [bit]
  {
  }

  /** A run of at most seven ones is an inner node where a string may end, and there are no others. */
  lemma {:induction false} OnesLow(n: nat)
    ensures Low(n, Power(n) - 1) == Ones(n)
  {
    if n > 0 {
      OnesLow(n - 1);
      assert (Power(n) - 1) / 2 == Power(n - 1) - 1;
      assert Ones(n) == Ones(n - 1) + [true];
    }
  }

  lemma OnesInner(n: nat)
    requires n <= 7
    ensures Inner(Node(n, Power(n) - 1))
  {
    SmallPowers();
    hide Power;
    match n
    case 0 =>
    case 1 =>
    case 2 =>
    case 3 =>
    case 4 =>
    case 5 =>
    case 6 =>
    case 7 =>
  }

  lemma SmallPowers()
    ensures Power(0) == 1 && Power(1) == 2 && Power(2) == 4 && Power(3) == 8
    ensures Power(4) == 16 && Power(5) == 32 && Power(6) == 64 && Power(7) == 128
  {
  }

  /** The decoder's answer for the bits of a string. */
  function Answer(bits: Bits): Option<seq<Byte>> {
    match Feed(ROOT, bits)
    case Failed => None
    case Decoded(n, t) => if MayEnd(n) then Some(t) else None
  }

  /** Decoding gives a text if and only if the bytes are its code and a padding of at most seven ones. */
  lemma AnswerIsInverse(src: seq<Byte>, text: seq<Byte>)
    ensures Answer(BitsOf(src)) == Some(text) <==> exists padding :: Encodes(src, text, padding)
  {
    hide Answer, Encodes, BitsOf;
    if Answer(BitsOf(src)) == Some(text) {
      var padding := AnswerEncodes(src, text);
    }
    if padding :| Encodes(src, text, padding) {
      EncodedAnswers(src, text, padding);
    }
  }

  lemma AnswerEncodes(src: seq<Byte>, text: seq<Byte>) returns (padding: nat)
    requires Answer(BitsOf(src)) == Some(text)
    ensures Encodes(src, text, padding)
  {
    hide Feed, Low, Power, BitsOf, EncodeBits;
    var bits := BitsOf(src);
    padding := Feed(ROOT, bits).node.bits;
    DecodedIsEncoded(ROOT, bits);
    LowNone(bits);
    OnesLow(padding);
  }

  lemma EncodedAnswers(src: seq<Byte>, text: seq<Byte>, padding: nat)
    requires Encodes(src, text, padding)
    ensures Answer(BitsOf(src)) == Some(text)
  {
    hide Feed, Low, Power, BitsOf, EncodeBits;
    var n := Node(padding, Power(padding) - 1);
    EncodedRead(text, Ones(padding));
    OnesLow(padding);
    OnesInner(padding);
    Reached(n);
    assert text + [] == text;
  }

  lemma LowNone(bits: Bits)
    ensures Low(0, 0) + bits == bits
  {
  }

  /** So a text is determined by its code. */
  lemma CodeIsUnique(src: seq<Byte>, a: seq<Byte>, b: seq<Byte>, p: nat, q: nat)
    requires Encodes(src, a, p) && Encodes(src, b, q)
    ensures a == b
  {
    AnswerIsInverse(src, a);
    AnswerIsInverse(src, b);
  }

  // ----- The decoder ---------------------------------------------------------------------------

  /** Two look-ups a byte: the symbols they complete are those of the eight bits. */
  lemma ByteRead(n: Node, byte: Byte)
    requires Inner(n)
    ensures var e1 := HuffDecodeTable(n, byte / 16);
            var e2 := HuffDecodeTable(e1.state, byte % 16);
            if e1.fail || e2.fail then Feed(n, Low(8, byte)) == Failed
            else Inner(e2.state) && e2.accepted == MayEnd(e2.state)
                 && Feed(n, Low(8, byte)) == Decoded(e2.state, Emitted(e1) + Emitted(e2))
  {
    hide Feed, Low, Inner, MayEnd;
    LowSplit(byte);
    FeedAppend(n, Low(4, byte / 16), Low(4, byte % 16));
    EntryRead(n, byte / 16);
    var e1 := HuffDecodeTable(n, byte / 16);
    if !e1.fail {
      EntryRead(e1.state, byte % 16);
    }
  }

  /** An entry of the table is what its four bits do. */
  lemma EntryRead(n: Node, nibble: nat)
    requires Inner(n)
    ensures var e := HuffDecodeTable(n, nibble);
            if e.fail then Feed(n, Low(4, nibble)) == Failed
            else Inner(e.state) && e.accepted == MayEnd(e.state)
                 && Feed(n, Low(4, nibble)) == Decoded(e.state, Emitted(e))
  {
    hide Feed, Low, Inner, MayEnd;
    AtMostOne(n, Low(4, nibble));
    StaysInner(n, Low(4, nibble));
  }

  function Emitted(e: HuffDecode): seq<Byte> {
    if e.sym.Some? then [e.sym.value] else []
  }

  lemma LowSplit(byte: Byte)
    ensures Low(8, byte) == Low(4, byte / 16) + Low(4, byte % 16)
  {
    hide Low;
    LowFour(4, byte);
    LowFour(0, byte % 16);
    LowNone([]);
    SameLowBits(byte);
    assert Low(0, byte % 16 / 16) == [];
    assert Low(8, byte) == Low(4, byte / 16) + LastFour(byte);
    assert Low(4, byte % 16) == [] + LastFour(byte % 16);
  }

  function LastFour(v: nat): Bits {
    [v / 8 % 2 == 1, v / 4 % 2 == 1, v / 2 % 2 == 1, v % 2 == 1]
  }

  lemma SameLowBits(v: nat)
    ensures LastFour(v) == LastFour(v % 16)
  {
    var q, low := v / 16, v % 16;
    assert v == 16 * q + low;
    LowBits(q, low);
  }

  lemma LowBits(q: nat, low: nat)
    requires low < 16
    ensures (16 * q + low) % 2 == low % 2 && (16 * q + low) / 2 % 2 == low / 2 % 2
    ensures (16 * q + low) / 4 % 2 == low / 4 % 2 && (16 * q + low) / 8 % 2 == low / 8 % 2
  {
    assert (16 * q + low) / 2 == 8 * q + low / 2;
    assert (16 * q + low) / 4 == 4 * q + low / 4;
    assert (16 * q + low) / 8 == 2 * q + low / 8;
    EvenPlus(8 * q, low);
    EvenPlus(4 * q, low / 2);
    EvenPlus(2 * q, low / 4);
    EvenPlus(q, low / 8);
  }

  lemma EvenPlus(k: nat, x: nat)
    ensures (2 * k + x) % 2 == x % 2
  {
  }

  lemma LowFour(n: nat, v: nat)
    ensures Low(n + 4, v) == Low(n, v / 16) + LastFour(v)
  {
    assert v / 2 / 2 == v / 4 && v / 4 / 2 == v / 8 && v / 8 / 2 == v / 16;
    assert Low(n + 1, v / 8) == Low(n, v / 16) + [v / 8 % 2 == 1];
    assert Low(n + 2, v / 4) == Low(n + 1, v / 8) + [v / 4 % 2 == 1];
    assert Low(n + 3, v / 2) == Low(n + 2, v / 4) + [v / 2 % 2 == 1];
  }

  /** `hpackDecodeString`, for a string that is not empty. */
  method HpackDecodeString(src: seq<Byte>) returns (value: Option<seq<Byte>>)
    requires src != []
    ensures value.Some? ==> exists padding :: Encodes(src, value.value, padding)
    ensures value.None? ==> forall text, padding :: !Encodes(src, text, padding)
  {
    hide Feed, Low, Inner, MayEnd, HuffDecodeTable, Prepend, Encodes, BitsOf, Answer;
    var text: seq<Byte> := [];
    var state := ROOT;
    var accepted := false;
    var i := 0;
    Start(src);
    while i < |src|
      invariant i <= |src| && Inner(state) && (i > 0 ==> accepted == MayEnd(state))
      invariant Feed(ROOT, BitsOf(src)) == Prepend(text, Feed(state, BitsOf(src[i..])))
    {
      ByteRead(state, src[i]);
      OneByte(text, state, src, i);
      ghost var e1 := HuffDecodeTable(state, src[i] / 16);
      ghost var e2 := HuffDecodeTable(e1.state, src[i] % 16);
      TwoAppends(text, Emitted(e1), Emitted(e2));
      var entry := HuffDecodeTable(state, src[i] / 16);
      if entry.fail {
        Fails(src);
        return None;
      }
      if entry.sym.Some? {
        text := text + [entry.sym.value];
      }
      entry := HuffDecodeTable(entry.state, src[i] % 16);
      if entry.fail {
        Fails(src);
        return None;
      }
      if entry.sym.Some? {
        text := text + [entry.sym.value];
      }
      state, accepted := entry.state, entry.accepted;
      i := i + 1;
    }
    Finish(src, text, state);
    if !accepted {
      return None;
    }
    return Some(text);
  }

  lemma TwoAppends(text: seq<Byte>, a: seq<Byte>, b: seq<Byte>)
    ensures text + (a + b) == (text + a) + b
    ensures text + [] == text && (text + a) + [] == text + a
  {
    assert text + [] == text;
  }

  lemma Start(src: seq<Byte>)
    ensures Inner(ROOT) && Feed(ROOT, BitsOf(src)) == Prepend([], Feed(ROOT, BitsOf(src[0..])))
  {
    assert src[0..] == src;
    PrependNone(Feed(ROOT, BitsOf(src)));
  }

  lemma OneByte(text: seq<Byte>, n: Node, src: seq<Byte>, i: nat)
    requires i < |src|
    ensures var r := Feed(n, Low(8, src[i]));
            Prepend(text, Feed(n, BitsOf(src[i..]))) ==
            if r.Failed? then Failed else Prepend(text + r.text, Feed(r.node, BitsOf(src[i + 1..])))
  {
    hide Feed, Low;
    assert src[i..][1..] == src[i + 1..];
    FeedAppend(n, Low(8, src[i]), BitsOf(src[i + 1..]));
    var r := Feed(n, Low(8, src[i]));
    if r.Decoded? {
      PrependTwice(text, r.text, Feed(r.node, BitsOf(src[i + 1..])));
    }
  }

  lemma Fails(src: seq<Byte>)
    requires Feed(ROOT, BitsOf(src)) == Failed
    ensures forall text, padding :: !Encodes(src, text, padding)
  {
    NoAnswer(src);
  }

  lemma NoAnswer(src: seq<Byte>)
    requires Answer(BitsOf(src)) == None
    ensures forall text, padding :: !Encodes(src, text, padding)
  {
    forall text, padding
      ensures !Encodes(src, text, padding)
    {
      AnswerIsInverse(src, text);
    }
  }

  lemma NoBits(src: seq<Byte>)
    ensures BitsOf(src[|src|..]) == []
  {
  }

  lemma Finish(src: seq<Byte>, text: seq<Byte>, state: Node)
    requires Feed(ROOT, BitsOf(src)) == Prepend(text, Feed(state, BitsOf(src[|src|..])))
    ensures MayEnd(state) ==> exists padding :: Encodes(src, text, padding)
    ensures !MayEnd(state) ==> forall other, padding :: !Encodes(src, other, padding)
  {
    NoBits(src);
    hide Feed, Encodes, BitsOf, Inner, MayEnd;
    FeedNone(state);
    assert text + [] == text;
    if MayEnd(state) {
      AnswerIsInverse(src, text);
    } else {
      NoAnswer(src);
    }
  }

  // ----- Whole bytes ---------------------------------------------------------------------------

  /** A text as the sender writes it: its code filled up with ones to whole bytes. */
  function EncodeString(text: seq<Byte>): seq<Byte> {
    var bits := EncodeBits(text);
    Packed(bits + Ones(Padding(|bits|)))
  }

  function Padding(n: nat): (p: nat)
    ensures p < 8 && (n + p) % 8 == 0
  {
    (8 - n % 8) % 8
  }

  function Packed(bits: Bits): seq<Byte>
    requires |bits| % 8 == 0
  {
    if bits == [] then [] else [FirstByte(bits)] + Packed(bits[8..])
  }

  function FirstByte(bits: Bits): (b: Byte)
    requires |bits| >= 8
    ensures Low(8, b) == bits[..8]
  {
    NumberLow(bits[..8]);
    assert Power(8) == 256;
    Number(bits[..8])
  }

  function Number(bits: Bits): nat {
    if bits == [] then 0 else 2 * Number(bits[..|bits| - 1]) + if bits[|bits| - 1] then 1 else 0
  }

  lemma {:induction false} NumberLow(bits: Bits)
    ensures Low(|bits|, Number(bits)) == bits && Number(bits) < Power(|bits|)
  {
    if bits == [] {
    } else {
      var head := bits[..|bits| - 1];
      NumberLow(head);
      assert bits == head + [bits[|bits| - 1]];
    }
  }

  lemma {:induction false} PackedBits(bits: Bits)
    requires |bits| % 8 == 0
    ensures BitsOf(Packed(bits)) == bits
    decreases |bits|
  {
    hide Low, FirstByte;
    if bits == [] {
    } else {
      PackedBits(bits[8..]);
      assert Packed(bits)[1..] == Packed(bits[8..]);
      assert bits == bits[..8] + bits[8..];
    }
  }

  /** Every text, the empty one too, is the answer for its own code. */
  lemma RoundTrip(text: seq<Byte>)
    ensures Encodes(EncodeString(text), text, Padding(|EncodeBits(text)|))
    ensures Answer(BitsOf(EncodeString(text))) == Some(text)
  {
    hide EncodeBits, Packed, BitsOf, Answer;
    PackedBits(EncodeBits(text) + Ones(Padding(|EncodeBits(text)|)));
    AnswerIsInverse(EncodeString(text), text);
  }

  /** The example of RFC 7541, section C.6.1: the code of "302" fills two bytes. */
  lemma KnownString()
    ensures Encodes([0x64, 0x02], [0x33, 0x30, 0x32], 0)
  {
    hide Low, EncodeBits, BitsOf;
    var f, t := false, true;
    LowChild(Node(0, 0), f);
    LowChild(Node(1, 0), t);
    LowChild(Node(2, 1), t);
    LowChild(Node(3, 3), f);
    LowChild(Node(4, 6), f);
    LowChild(Node(5, 12), t);
    LowChild(Node(6, 25), f);
    LowChild(Node(7, 50), f);
    assert Low(6, 25) == [f, t, t, f, f, t] && Low(8, 100) == [f, t, t, f, f, t, f, f];
    LowChild(Node(1, 0), f);
    LowChild(Node(2, 0), f);
    LowChild(Node(3, 0), f);
    LowChild(Node(4, 0), f);
    LowChild(Node(5, 0), f);
    LowChild(Node(6, 0), t);
    LowChild(Node(7, 1), f);
    assert Low(5, 0) == [f, f, f, f, f] && Low(8, 2) == [f, f, f, f, f, f, t, f];
    LowChild(Node(3, 0), t);
    LowChild(Node(4, 1), f);
    assert Low(5, 2) == [f, f, f, t, f];
    assert Ones(0) == [];
    KnownBits();
  }

  lemma KnownBits()
    ensures EncodeBits([0x33, 0x30, 0x32]) == Low(6, 25) + Low(5, 0) + Low(5, 2)
    ensures BitsOf([0x64, 0x02]) == Low(8, 100) + Low(8, 2)
  {
    hide Low;
    var text: seq<Byte>, src: seq<Byte> := [0x33, 0x30, 0x32], [0x64, 0x02];
    assert HuffSym(0x33) == Sym(6, 25) && HuffSym(0x30) == Sym(5, 0) && HuffSym(0x32) == Sym(5, 2);
    assert text[1..] == [0x30, 0x32] && text[1..][1..] == [0x32] && text[1..][1..][1..] == [];
    assert src[1..] == [0x02] && src[1..][1..] == [];
  }
}
