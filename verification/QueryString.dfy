/** Query strings: decoded in place, filed newest first, read back in order. */
module QueryString {

  type Bytes = seq<bv8>

  const PERCENT: bv8 := 0x25
  const AMPERSAND: bv8 := 0x26
  const PLUS: bv8 := 0x2b
  const EQUALS: bv8 := 0x3d

  datatype Token = Literal(byte: bv8) | Equal | And

  datatype Pair = Pair(name: Bytes, value: Bytes)

  /** `QMultiMap`: each name with its values, the newest first. */
  type Params = map<Bytes, seq<Bytes>>

  // ----- The meaning of a query ----------------------------------------------------------------

  /** A digit's value; any other character stands for its own code. */
  function Hex(c: bv8): bv8 {
    if 0x30 <= c <= 0x39 then c - 0x30
    else if 0x61 <= c <= 0x66 then c - 0x61 + 10
    else if 0x41 <= c <= 0x46 then c - 0x41 + 10
    else c
  }

  /** An escape takes the next two characters, whatever they are, if there are two. */
  function Tokens(raw: Bytes): seq<Token> {
    if raw == [] then []
    else if raw[0] == PERCENT && |raw| > 2 then [Literal((Hex(raw[1]) << 4) | Hex(raw[2]))] + Tokens(raw[3..])
    else [TokenOf(raw[0])] + Tokens(raw[1..])
  }

  function TokenOf(c: bv8): Token {
    if c == PLUS then Literal(0x20) else if c == EQUALS then Equal else if c == AMPERSAND then And else Literal(c)
  }

  /** The pairs still to come: `name` is what stood before the last `=` of the current pair, `text` what
      came after. A second `=` begins a new name. */
  function Pairs(name: seq<Bytes>, text: Bytes, tokens: seq<Token>): seq<Pair>
    requires |name| <= 1
    decreases |tokens|
  {
    if tokens == [] then PairOf(name, text)
    else match tokens[0]
      case Literal(b) => Pairs(name, text + [b], tokens[1..])
      case Equal => Pairs([text], [], tokens[1..])
      case And => PairOf(name, text) + Pairs([], [], tokens[1..])
  }

  /** A pair of nothing is dropped. */
  function PairOf(name: seq<Bytes>, text: Bytes): seq<Pair>
    requires |name| <= 1
  {
    if name == [] then if text == [] then [] else [Pair(text, [])]
    else if name[0] == [] && text == [] then [] else [Pair(name[0], text)]
  }

  function Insert(params: Params, p: Pair): Params {
    params[p.name := [p.value] + if p.name in params then params[p.name] else []]
  }

  function Filed(params: Params, pairs: seq<Pair>): Params
    decreases |pairs|
  {
    if pairs == [] then params else Filed(Insert(params, pairs[0]), pairs[1..])
  }

  function Decoded(raw: Bytes): Params {
    Filed(map[], Pairs([], [], Tokens(raw)))
  }

  // ----- In place ------------------------------------------------------------------------------

  /** `Utils::decodePercentEncoding(char *, int)`: decoded bytes are written over the query behind the
      reading position, which they never pass. */
  method DecodePercentEncoding(data: array<bv8>, len: int) returns (ret: Params)
    requires len <= data.Length
    modifies data
    ensures len > 0 ==> ret == Decoded(old(data[..len]))
    ensures len <= 0 ==> ret == map[]
    ensures forall k :: 0 <= k < data.Length && k >= len ==> data[k] == old(data[k])
  {
    hide Tokens, Filed, Pairs, PairOf, Decoded, TokenOf, Hex;
    ret := map[];
    if len <= 0 {
      return;
    }
    ghost var raw := data[..len];
    AtStart(raw);
    var c := Cursor(map[], false, [], 0, 0, 0);
    while c.i < len
      invariant c.from <= c.w <= c.i <= len
      invariant forall k :: c.i <= k < data.Length ==> data[k] == old(data[k])
      invariant Decoded(raw) == Ahead(c, data[..], raw)
    {
      c := Turn(c, data, len, raw);
    }
    NothingLeft(NameOf(c.hasKey, c.key), data[c.from..c.w], raw, c.i);
    ret := ProcessKeyPair(c.ret, c.hasKey, c.key, data, c.from, c.w);
  }

  /** The pairs so far, the name before the last `=`, and the three positions: where the current text
      begins, where the next byte is written, and where the next is read. */
  datatype Cursor = Cursor(ret: Params, hasKey: bool, key: Bytes, from: nat, w: nat, i: nat)

  /** All the pairs, from where the loop stands. */
  ghost function Ahead(c: Cursor, data: Bytes, raw: Bytes): Params
    requires c.from <= c.w <= |data| && c.i <= |raw|
  {
    Filed(c.ret, Pairs(NameOf(c.hasKey, c.key), data[c.from..c.w], Tokens(raw[c.i..])))
  }

  /** One turn of the loop. */
  method Turn(c: Cursor, data: array<bv8>, len: nat, ghost raw: Bytes) returns (c': Cursor)
    requires c.from <= c.w <= c.i < len == |raw| <= data.Length
    requires forall k :: c.i <= k < |raw| ==> data[k] == raw[k]
    modifies data
    ensures c'.from <= c'.w <= c'.i <= |raw| && c.i < c'.i
    ensures forall k :: c'.i <= k < data.Length ==> data[k] == old(data[k])
    ensures Ahead(c', data[..], raw) == old(Ahead(c, data[..], raw))
  {
    hide Tokens, Filed, Pairs, PairOf, TokenOf, Hex;
    NextToken(raw, c.i);
    var token, next;
    if data[c.i] == PERCENT && c.i + 2 < len {
      token, next := Literal((Hex(data[c.i + 1]) << 4) | Hex(data[c.i + 2])), c.i + 3;
    } else {
      token, next := TokenOf(data[c.i]), c.i + 1;
    }
    assert data[..][c.from..c.w] == data[c.from..c.w];
    var ret, hasKey, key, from, w := Take(token, c.ret, c.hasKey, c.key, data, c.from, c.w, Tokens(raw[next..]));
    assert data[..][from..w] == data[from..w];
    c' := Cursor(ret, hasKey, key, from, w, next);
  }

  function NameOf(hasKey: bool, key: Bytes): (name: seq<Bytes>)
    ensures |name| <= 1
  {
    if hasKey then [key] else []
  }

  /** One token; `more` is what follows. */
  method Take(token: Token, params: Params, hasKey: bool, key: Bytes, data: array<bv8>, from: nat, w: nat,
              ghost more: seq<Token>)
    returns (ret: Params, hasKey': bool, key': Bytes, from': nat, w': nat)
    requires from <= w < data.Length
    modifies data
    ensures from <= from' <= w' <= w + 1
    ensures forall k :: 0 <= k < data.Length && k != w ==> data[k] == old(data[k])
    ensures Filed(ret, Pairs(NameOf(hasKey', key'), data[from'..w'], more))
            == Filed(params, Pairs(NameOf(hasKey, key), old(data[from..w]), [token] + more))
  {
    ret, hasKey', key', from', w' := params, hasKey, key, from, w;
    OneToken(NameOf(hasKey, key), data[from..w], token, more);
    hide Filed, Pairs;
    assert data[w..w] == [];
    match token
    case Literal(c) =>
      w' := Put(data, from, w, c);
    case Equal =>
      key', hasKey' := data[from..w], true;
      from' := w;
    case And =>
      FiledAppend(params, PairOf(NameOf(hasKey, key), data[from..w]), Pairs([], [], more));
      ret := ProcessKeyPair(params, hasKey, key, data, from, w);
      key', hasKey' := [], false;
      from' := w;
  }

  lemma OneToken(name: seq<Bytes>, text: Bytes, token: Token, more: seq<Token>)
    requires |name| <= 1
    ensures Pairs(name, text, [token] + more) ==
            match token
            case Literal(b) => Pairs(name, text + [b], more)
            case Equal => Pairs([text], [], more)
            case And => PairOf(name, text) + Pairs([], [], more)
  {
    assert ([token] + more)[1..] == more;
  }

  /** `*data++ = c`. */
  method Put(data: array<bv8>, from: nat, w: nat, c: bv8) returns (w': nat)
    requires from <= w < data.Length
    modifies data
    ensures w' == w + 1 && data[from..w'] == old(data[from..w]) + [c]
    ensures forall k :: 0 <= k < data.Length && k != w ==> data[k] == old(data[k])
  {
    ghost var before := data[from..w];
    data[w] := c;
    w' := w + 1;
    assert data[from..w] == before && data[from..w'] == data[from..w] + [c];
  }

  lemma AtStart(raw: Bytes)
    ensures Decoded(raw) == Filed(map[], Pairs([], [], Tokens(raw[0..])))
  {
    assert raw[0..] == raw;
  }

  method ProcessKeyPair(params: Params, hasKey: bool, key: Bytes, data: array<bv8>, from: nat, to: nat)
    returns (ret: Params)
    requires from <= to <= data.Length
    ensures ret == Filed(params, PairOf(NameOf(hasKey, key), data[from..to]))
  {
    ret := params;
    if hasKey {
      if to - from == 0 {
        if key != [] {
          ret := Insert(ret, Pair(key, []));
        }
      } else {
        ret := Insert(ret, Pair(key, data[from..to]));
      }
    } else if to - from > 0 {
      ret := Insert(ret, Pair(data[from..to], []));
    }
  }

  lemma NextToken(raw: Bytes, i: nat)
    requires i < |raw|
    ensures if raw[i] == PERCENT && i + 2 < |raw| then
              Tokens(raw[i..]) == [Literal((Hex(raw[i + 1]) << 4) | Hex(raw[i + 2]))] + Tokens(raw[i + 3..])
            else Tokens(raw[i..]) == [TokenOf(raw[i])] + Tokens(raw[i + 1..])
  {
    if raw[i] == PERCENT && i + 2 < |raw| {
      assert raw[i..][3..] == raw[i + 3..];
    } else {
      assert raw[i..][1..] == raw[i + 1..];
    }
  }

  lemma NothingLeft(name: seq<Bytes>, text: Bytes, raw: Bytes, i: nat)
    requires |name| <= 1 && i == |raw|
    ensures Pairs(name, text, Tokens(raw[i..])) == PairOf(name, text)
  {
  }

  lemma {:induction false} FiledAppend(params: Params, a: seq<Pair>, b: seq<Pair>)
    ensures Filed(params, a + b) == Filed(Filed(params, a), b)
    decreases |a|
  {
    if a == [] {
      assert a + b == b;
    } else {
      assert (a + b)[1..] == a[1..] + b;
      FiledAppend(Insert(params, a[0]), a[1..], b);
    }
  }

  // ----- Reading back --------------------------------------------------------------------------

  /** The values filed under a name. */
  function Under(params: Params, name: Bytes): seq<Bytes> {
    if name in params then params[name] else []
  }

  /** The values of one name, in the order of the pairs. */
  function ValuesOf(pairs: seq<Pair>, name: Bytes): seq<Bytes> {
    if pairs == [] then [] else OwnValue(pairs[0], name) + ValuesOf(pairs[1..], name)
  }

  function OwnValue(p: Pair, name: Bytes): seq<Bytes> {
    if p.name == name then [p.value] else []
  }

  function Reversed(s: seq<Bytes>): seq<Bytes> {
    if s == [] then [] else Reversed(s[1..]) + [s[0]]
  }

  /** `Request::queryParameters(key)`: the entries of one name, each put in front of the one before. */
  method QueryParameters(query: Params, key: Bytes) returns (ret: seq<Bytes>)
    ensures ret == Reversed(Under(query, key))
  {
    ret := [];
    if key !in query {
      return;
    }
    var values := query[key];
    for i := 0 to |values|
      invariant ret + [] == Reversed(values[..i])
    {
      ReversedMore(values[..i], values[i]);
      assert values[..i + 1] == values[..i] + [values[i]];
      ret := [values[i]] + ret;
    }
    assert values[..|values|] == values;
  }

  lemma {:induction false} ReversedMore(s: seq<Bytes>, x: Bytes)
    ensures Reversed(s + [x]) == [x] + Reversed(s)
  {
    if s == [] {
    } else {
      ReversedMore(s[1..], x);
      assert (s + [x])[1..] == s[1..] + [x];
    }
  }

  /** Filed newest first and read back to front, a name's values come in the order of appearance. */
  lemma {:induction false} OrderOfAppearance(params: Params, pairs: seq<Pair>, name: Bytes)
    ensures Reversed(Under(Filed(params, pairs), name)) == Reversed(Under(params, name)) + ValuesOf(pairs, name)
    decreases |pairs|
  {
    hide Filed, Insert, Reversed, ValuesOf, Under;
    if pairs == [] {
      NothingFiled(params, name);
    } else {
      OrderOfAppearance(Insert(params, pairs[0]), pairs[1..], name);
      OneFiled(params, pairs, name);
      InsertedLast(params, pairs[0], name);
      Shift(Reversed(Under(params, name)), OwnValue(pairs[0], name), ValuesOf(pairs[1..], name));
    }
  }

  lemma NothingFiled(params: Params, name: Bytes)
    ensures Filed(params, []) == params && ValuesOf([], name) == []
    ensures Reversed(Under(params, name)) + [] == Reversed(Under(params, name))
  {
  }

  lemma OneFiled(params: Params, pairs: seq<Pair>, name: Bytes)
    requires pairs != []
    ensures Filed(params, pairs) == Filed(Insert(params, pairs[0]), pairs[1..])
    ensures ValuesOf(pairs, name) == OwnValue(pairs[0], name) + ValuesOf(pairs[1..], name)
  {
    hide Insert;
  }

  lemma InsertedLast(params: Params, p: Pair, name: Bytes)
    ensures Reversed(Under(Insert(params, p), name)) == Reversed(Under(params, name)) + OwnValue(p, name)
  {
    var before := Under(params, name);
    if p.name == name {
      assert Under(Insert(params, p), name) == [p.value] + before;
      assert ([p.value] + before)[1..] == before;
    } else {
      assert Reversed(before) + [] == Reversed(before);
    }
  }

  lemma Shift(a: seq<Bytes>, b: seq<Bytes>, c: seq<Bytes>)
    ensures (a + b) + c == a + (b + c)
  {
  }

  // ----- Escaping ------------------------------------------------------------------------------

  /** How a sender writes what it may write in more than one way: the letters of a digit, a space as a plus
      sign, a value of nothing without an equals sign. The choice is free at each place. */
  datatype Style = Style(lower: nat -> bool, plus: nat -> bool, bare: nat -> bool)

  function Digit(n: bv8, lower: bool): bv8 {
    if n < 10 then 0x30 + n else (if lower then 0x61 else 0x41) + (n - 10)
  }

  /** Bytes outside `keep` are escaped; `at` counts the digits before. */
  function Escape(text: Bytes, keep: set<bv8>, style: Style, at: nat): Bytes {
    if text == [] then []
    else EscapeByte(text[0], keep, style, at) + Escape(text[1..], keep, style, at + 2)
  }

  function EscapeByte(b: bv8, keep: set<bv8>, style: Style, at: nat): Bytes {
    if b in keep then [b]
    else if b == 0x20 && style.plus(at) then [PLUS]
    else [PERCENT, Digit(b >> 4, style.lower(at)), Digit(b & 0xf, style.lower(at + 1))]
  }

  /** Bytes with a meaning of their own must be escaped. */
  predicate Safe(keep: set<bv8>) {
    PERCENT !in keep && AMPERSAND !in keep && PLUS !in keep && EQUALS !in keep
  }

  function EncodeQuery(pairs: seq<Pair>, keep: set<bv8>, style: Style, at: nat): Bytes {
    if pairs == [] then []
    else
      Escape(pairs[0].name, keep, style, at)
      + (EncodeValue(pairs[0], keep, style, at)
         + if |pairs| == 1 then [] else [AMPERSAND] + EncodeQuery(pairs[1..], keep, style, After(pairs[0], at)))
  }

  function EncodeValue(p: Pair, keep: set<bv8>, style: Style, at: nat): Bytes {
    if p.value == [] && style.bare(at) then [] else [EQUALS] + Escape(p.value, keep, style, at + 2 * |p.name|)
  }

  function After(p: Pair, at: nat): nat {
    at + 2 * |p.name| + 2 * |p.value|
  }

  function Literals(text: Bytes): seq<Token> {
    if text == [] then [] else [Literal(text[0])] + Literals(text[1..])
  }

  lemma DigitValue(b: bv8, l: bool, m: bool)
    ensures Hex(Digit(b >> 4, l)) == b >> 4 && Hex(Digit(b & 0xf, m)) == b & 0xf
    ensures ((b >> 4) << 4) | (b & 0xf) == b
  {
  }

  /** A character that is no digit counts with its own code, cut to a byte: `%zz` is one byte, too. */
  lemma NoDigits(a: bv8, b: bv8, more: Bytes)
    requires !IsDigit(a) && !IsDigit(b)
    ensures Tokens([PERCENT, a, b] + more) == [Literal((a << 4) | b)] + Tokens(more)
  {
    assert ([PERCENT, a, b] + more)[3..] == more;
    NoDigit(a);
    NoDigit(b);
  }

  lemma NoDigit(c: bv8)
    requires !IsDigit(c)
    ensures Hex(c) == c
  {
    assert 0x30 <= c <= 0x39 ==> c == Digit(c - 0x30, false);
    assert 0x41 <= c <= 0x46 ==> c == Digit(c - 0x41 + 10, false);
    assert 0x61 <= c <= 0x66 ==> c == Digit(c - 0x61 + 10, true);
  }

  ghost predicate IsDigit(c: bv8) {
    exists n: bv8, lower: bool :: n < 16 && c == Digit(n, lower)
  }

  lemma {:induction false} EscapeRead(text: Bytes, keep: set<bv8>, style: Style, at: nat, rest: Bytes)
    requires Safe(keep)
    ensures Tokens(Escape(text, keep, style, at) + rest) == Literals(text) + Tokens(rest)
    decreases |text|
  {
    hide EscapeByte, Tokens;
    if text == [] {
      assert Escape(text, keep, style, at) + rest == rest && Literals(text) + Tokens(rest) == Tokens(rest);
    } else {
      var more := Escape(text[1..], keep, style, at + 2) + rest;
      EscapeRead(text[1..], keep, style, at + 2, rest);
      EscapeByteRead(text[0], keep, style, at, more);
      assert Escape(text, keep, style, at) + rest == EscapeByte(text[0], keep, style, at) + more;
      assert Literals(text) + Tokens(rest) == [Literal(text[0])] + (Literals(text[1..]) + Tokens(rest));
    }
  }

  lemma EscapeByteRead(b: bv8, keep: set<bv8>, style: Style, at: nat, more: Bytes)
    requires Safe(keep)
    ensures Tokens(EscapeByte(b, keep, style, at) + more) == [Literal(b)] + Tokens(more)
  {
    hide Hex, Digit, Tokens;
    if b in keep {
      OneByte(b, more);
    } else if b == 0x20 && style.plus(at) {
      OneByte(PLUS, more);
    } else {
      OneEscape(b, style.lower(at), style.lower(at + 1), more);
    }
  }

  lemma OneByte(b: bv8, more: Bytes)
    requires b != PERCENT
    ensures Tokens([b] + more) == [TokenOf(b)] + Tokens(more)
  {
    assert ([b] + more)[1..] == more;
  }

  lemma OneEscape(b: bv8, l: bool, m: bool, more: Bytes)
    ensures Tokens([PERCENT, Digit(b >> 4, l), Digit(b & 0xf, m)] + more) == [Literal(b)] + Tokens(more)
  {
    DigitValue(b, l, m);
    hide Hex, Digit;
    var h, k := Digit(b >> 4, l), Digit(b & 0xf, m);
    assert ([PERCENT, h, k] + more)[3..] == more;
  }

  lemma {:induction false} LiteralsRead(name: seq<Bytes>, before: Bytes, text: Bytes, tokens: seq<Token>)
    requires |name| <= 1
    ensures Pairs(name, before, Literals(text) + tokens) == Pairs(name, before + text, tokens)
    decreases |text|
  {
    hide Pairs;
    if text == [] {
      assert Literals(text) + tokens == tokens && before + text == before;
    } else {
      assert Literals(text) + tokens == [Literal(text[0])] + (Literals(text[1..]) + tokens);
      OneToken(name, before, Literal(text[0]), Literals(text[1..]) + tokens);
      LiteralsRead(name, before + [text[0]], text[1..], tokens);
      assert before + [text[0]] + text[1..] == before + text;
    }
  }

  /** Of two equals signs the last one counts; what stood before the first is lost. */
  lemma LastEqualsCounts(a: Bytes, b: Bytes, c: Bytes, tokens: seq<Token>)
    ensures Pairs([], [], Literals(a) + ([Equal] + (Literals(b) + ([Equal] + (Literals(c) + tokens)))))
            == Pairs([b], c, tokens)
  {
    hide Pairs, Literals;
    var third := Literals(c) + tokens;
    var second := Literals(b) + ([Equal] + third);
    LiteralsRead([], [], a, [Equal] + second);
    OneToken([], [] + a, Equal, second);
    LiteralsRead([[] + a], [], b, [Equal] + third);
    OneToken([[] + a], [] + b, Equal, third);
    LiteralsRead([[] + b], [], c, tokens);
    assert [] + b == b && [] + c == c;
  }

  /** The pairs that are something, in order. */
  function WithoutEmpty(pairs: seq<Pair>): seq<Pair> {
    if pairs == [] then []
    else (if pairs[0] == Pair([], []) then [] else [pairs[0]]) + WithoutEmpty(pairs[1..])
  }

  /** Decoding an encoded query gives its pairs back in order, but for pairs of an empty name with an
      empty value, which are lost. */
  lemma {:induction false} EncodedIsRead(pairs: seq<Pair>, keep: set<bv8>, style: Style, at: nat)
    requires Safe(keep)
    ensures Pairs([], [], Tokens(EncodeQuery(pairs, keep, style, at))) == WithoutEmpty(pairs)
    decreases |pairs|
  {
    if pairs == [] {
    } else {
      var p := pairs[0];
      var more := EncodeQuery(pairs[1..], keep, style, After(p, at));
      var tail := if |pairs| == 1 then [] else [AMPERSAND] + more;
      OnePair(p, keep, style, at, tail);
      assert p == Pair(p.name, p.value);
      if |pairs| > 1 {
        EncodedIsRead(pairs[1..], keep, style, After(p, at));
        AfterAmpersand([p.name], p.value, more);
        AfterAmpersand([], p.name, more);
      } else {
        assert WithoutEmpty(pairs[1..]) == [];
        assert WithoutEmpty(pairs) == PairOf([p.name], p.value);
      }
    }
  }

  lemma OnePair(p: Pair, keep: set<bv8>, style: Style, at: nat, tail: Bytes)
    requires Safe(keep)
    ensures var raw := Escape(p.name, keep, style, at) + (EncodeValue(p, keep, style, at) + tail);
            var read := Pairs([], [], Tokens(raw));
            read == Pairs([p.name], p.value, Tokens(tail))
            || (p.value == [] && read == Pairs([], p.name, Tokens(tail)))
  {
    hide Escape, Pairs, Literals, Tokens;
    var rest := EncodeValue(p, keep, style, at) + tail;
    EscapeRead(p.name, keep, style, at, rest);
    LiteralsRead([], [], p.name, Tokens(rest));
    assert [] + p.name == p.name && [] + p.value == p.value;
    if p.value == [] && style.bare(at) {
      assert rest == tail;
    } else {
      var value := Escape(p.value, keep, style, at + 2 * |p.name|);
      assert rest == [EQUALS] + (value + tail);
      AfterEquals(p.name, value + tail);
      EscapeRead(p.value, keep, style, at + 2 * |p.name|, tail);
      LiteralsRead([p.name], [], p.value, Tokens(tail));
    }
  }

  lemma AfterEquals(text: Bytes, rest: Bytes)
    ensures Pairs([], text, Tokens([EQUALS] + rest)) == Pairs([text], [], Tokens(rest))
  {
    assert ([EQUALS] + rest)[1..] == rest;
    assert ([Equal] + Tokens(rest))[1..] == Tokens(rest);
  }

  lemma AfterAmpersand(name: seq<Bytes>, text: Bytes, rest: Bytes)
    requires |name| <= 1
    ensures Pairs(name, text, Tokens([AMPERSAND] + rest)) == PairOf(name, text) + Pairs([], [], Tokens(rest))
  {
    assert ([AMPERSAND] + rest)[1..] == rest;
    assert ([And] + Tokens(rest))[1..] == Tokens(rest);
  }

  lemma {:induction false} NothingEmpty(pairs: seq<Pair>)
    ensures |WithoutEmpty(pairs)| <= |pairs|
    ensures WithoutEmpty(pairs) == pairs <==> Pair([], []) !in pairs
  {
    if pairs == [] {
    } else {
      NothingEmpty(pairs[1..]);
      var rest := WithoutEmpty(pairs[1..]);
      if pairs[0] == Pair([], []) {
        assert WithoutEmpty(pairs) == [] + rest;
      } else {
        assert WithoutEmpty(pairs) == [pairs[0]] + rest;
        assert ([pairs[0]] + rest)[1..] == rest;
      }
    }
  }

  /** What a form sent under a name is what the application reads under it, in order. */
  lemma SentIsRead(pairs: seq<Pair>, keep: set<bv8>, style: Style, name: Bytes)
    requires Safe(keep)
    ensures var query := Decoded(EncodeQuery(pairs, keep, style, 0));
            Reversed(Under(query, name)) == ValuesOf(WithoutEmpty(pairs), name)
  {
    EncodedIsRead(pairs, keep, style, 0);
    OrderOfAppearance(map[], WithoutEmpty(pairs), name);
    assert [] + ValuesOf(WithoutEmpty(pairs), name) == ValuesOf(WithoutEmpty(pairs), name);
  }
}
