/** Integers of the HTTP/2 header code (RFC 7541, section 5.1), read into sixteen bits. */
module HpackInteger {
  import opened Basics

  /** A prefix of so many bits, all ones: `INT_MASK`. */
  predicate Mask(mask: nat) {
    mask == 15 || mask == 31 || mask == 63 || mask == 127
  }

  /** The continuation of an integer: seven bits a byte, the lowest first. */
  function Groups(n: nat): (bytes: seq<Byte>)
    ensures bytes != []
  {
    if n < 128 then [n] else [n % 128 + 128] + Groups(n / 128)
  }

  function Encoded(n: nat, mask: nat): seq<Byte>
    requires Mask(mask)
  {
    if n < mask then [n] else [mask] + Groups(n - mask)
  }

  /** The number that starts the bytes, and what follows it; nothing if they end before it does. */
  function Continued(src: seq<Byte>): Option<(nat, seq<Byte>)> {
    if src == [] then None
    else if src[0] < 128 then Some((src[0], src[1..]))
    else
      match Continued(src[1..])
      case None => None
      case Some((n, rest)) => Some((src[0] - 128 + 128 * n, rest))
  }

  function Number(src: seq<Byte>, mask: nat): Option<(nat, seq<Byte>)>
    requires src != [] && Mask(mask)
  {
    var low := src[0] % (mask + 1);
    if low < mask then Some((low, src[1..]))
    else
      match Continued(src[1..])
      case None => None
      case Some((n, rest)) => Some((mask + n, rest))
  }

  /** `encodeUInt16`. */
  method EncodeUInt16(i: nat, mask: nat) returns (buf: seq<Byte>)
    requires Mask(mask) && i < 0x8000_0000
    ensures buf == Encoded(i, mask)
  {
    if i < mask {
      return [i];
    }
    var n: nat := i - mask;
    buf := [mask];
    while n >= 128
      invariant Encoded(i, mask) == buf + Groups(n)
    {
      assert buf + Groups(n) == (buf + [n % 128 + 128]) + Groups(n / 128);
      buf := buf + [n % 128 + 128];
      n := n / 128;
    }
    buf := buf + [n];
  }

  /** `decodeUInt16`: the sum wraps around at 65536. */
  method DecodeUInt16(src: seq<Byte>, mask: nat) returns (r: Option<(nat, seq<Byte>)>)
    requires src != [] && Mask(mask)
    ensures match Number(src, mask) case None => r == None case Some((n, rest)) => r == Some((n % 65536, rest))
  {
    hide Continued, Number, Onward;
    var dst: nat := src[0] % (mask + 1);
    var at := 0;
    if dst == mask {
      var unit: nat := 1;
      ghost var sum: nat := mask;
      var more := true;
      StartGroups(src, mask);
      while more
        invariant at < |src| && dst == sum % 65536
        invariant more ==> Number(src, mask) == Onward(sum, unit, Continued(src[at + 1..]))
        invariant !more ==> Number(src, mask) == Some((sum, src[at + 1..]))
        decreases |src| - at, more
      {
        at := at + 1;
        if at >= |src| {
          NoGroup(sum, unit, src, at);
          return None;
        }
        OneGroup(sum, unit, src, at);
        var low: nat := src[at] % 128;
        var add: nat := low * unit;
        WrapAdd(sum, add);
        sum := sum + add;
        dst := (dst + add) % 65536;
        unit := unit * 128;
        more := src[at] >= 128;
      }
    }
    ShortNumber(src, mask);
    r := Some((dst, src[at + 1..]));
  }

  lemma ShortNumber(src: seq<Byte>, mask: nat)
    requires src != [] && Mask(mask)
    ensures var low: nat := src[0] % (mask + 1);
            low < mask ==> Number(src, mask) == Some((low, src[1..])) && low % 65536 == low
  {
  }

  lemma StartGroups(src: seq<Byte>, mask: nat)
    requires src != [] && Mask(mask) && src[0] % (mask + 1) == mask
    ensures Number(src, mask) == Onward(mask, 1, Continued(src[1..]))
  {
  }

  lemma NoGroup(sum: nat, unit: nat, src: seq<Byte>, at: nat)
    requires at == |src|
    ensures Onward(sum, unit, Continued(src[at..])) == None
  {
  }

  function Onward(sum: nat, unit: nat, r: Option<(nat, seq<Byte>)>): Option<(nat, seq<Byte>)> {
    match r case None => None case Some((n, rest)) => Some((sum + unit * n, rest))
  }

  lemma OneGroup(sum: nat, unit: nat, src: seq<Byte>, at: nat)
    requires at < |src|
    ensures Onward(sum, unit, Continued(src[at..]))
            == var low: nat := src[at] % 128;
               if src[at] < 128 then Some((sum + low * unit, src[at + 1..]))
               else Onward(sum + low * unit, unit * 128, Continued(src[at + 1..]))
  {
    assert src[at..][1..] == src[at + 1..];
    var r := Continued(src[at + 1..]);
    if src[at] >= 128 && r.Some? {
      Distribute(unit, src[at] - 128, r.value.0);
    }
  }

  lemma Distribute(unit: nat, low: nat, n: nat)
    ensures unit * (low + 128 * n) == low * unit + unit * 128 * n
  {
    assert unit * (128 * n) == unit * 128 * n;
  }

  lemma WrapAdd(a: nat, b: nat)
    ensures (a % 65536 + b) % 65536 == (a + b) % 65536
  {
  }

  lemma {:induction false} GroupsRead(n: nat, rest: seq<Byte>)
    ensures Continued(Groups(n) + rest) == Some((n, rest))
  {
    var src := Groups(n) + rest;
    if n < 128 {
      assert src[1..] == rest;
    } else {
      GroupsRead(n / 128, rest);
      assert src[1..] == Groups(n / 128) + rest;
    }
  }

  /** Reading a written integer gives it back, and exactly the bytes that follow. */
  lemma WrittenIsRead(n: nat, mask: nat, rest: seq<Byte>)
    requires Mask(mask)
    ensures Number(Encoded(n, mask) + rest, mask) == Some((n, rest))
  {
    hide Groups, Continued;
    var src := Encoded(n, mask) + rest;
    if n < mask {
      assert src[1..] == rest;
    } else {
      GroupsRead(n - mask, rest);
      assert src[1..] == Groups(n - mask) + rest;
    }
  }

  /** The examples of RFC 7541, sections C.1.1 and C.1.2. */
  lemma KnownIntegers()
    ensures Encoded(10, 31) == [10] && Encoded(1337, 31) == [31, 154, 10]
  {
    assert Groups(10) == [10] && Groups(1306) == [154] + Groups(10);
  }

  /** The two methods together: the integer modulo 65536, so itself if and only if it is below. */
  method SendAndReceive(i: nat, mask: nat, rest: seq<Byte>) returns (r: Option<(nat, seq<Byte>)>)
    requires Mask(mask) && i < 0x8000_0000
    ensures r == Some((i % 65536, rest))
    ensures r == Some((i, rest)) <==> i < 65536
  {
    var buf := EncodeUInt16(i, mask);
    WrittenIsRead(i, mask, rest);
    r := DecodeUInt16(buf + rest, mask);
  }
}
