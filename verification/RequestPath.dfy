/** The path of a request as it reaches the dispatcher: unescaped in place, doubled slashes removed. */
module RequestPath {
  import opened Slashes
  import opened QueryString
  import opened Arguments
  import PathDispatch

  const SLASH: bv8 := 0x2f
  const SPACE: bv8 := 0x20

  /** What the byte written last was: a slash of the path, one that was escaped, or neither. */
  datatype Last = Other | PlainSlash | EscapedSlash

  predicate EscapeAt(raw: Bytes) {
    |raw| > 2 && raw[0] == PERCENT
  }

  function Unescaped(raw: Bytes): bv8
    requires EscapeAt(raw)
  {
    (Hex(raw[1]) << 4) | Hex(raw[2])
  }

  /** The bytes of a path. A slash right after a plain one goes; escaped slashes stay. */
  function Cleaned(raw: Bytes, lastSlash: bool): Bytes {
    if raw == [] then []
    else if EscapeAt(raw) then [Unescaped(raw)] + Cleaned(raw[3..], false)
    else if raw[0] == PLUS then [SPACE] + Cleaned(raw[1..], false)
    else if raw[0] == SLASH then (if lastSlash then [] else [SLASH]) + Cleaned(raw[1..], true)
    else [raw[0]] + Cleaned(raw[1..], false)
  }

  /** Every path begins with a slash. */
  function Rooted(path: Bytes): Bytes {
    if path == [] || path[0] != SLASH then [SLASH] + path else path
  }

  function PathOf(raw: Bytes): Bytes {
    Rooted(Cleaned(raw, false))
  }

  /** `EngineRequest::setPath`: bytes are written over the raw path behind the reading position. */
  method SetPath(rawPath: array<bv8>, len: nat) returns (path: Bytes)
    requires len <= rawPath.Length
    modifies rawPath
    ensures path == PathOf(old(rawPath[..len]))
  {
    hide Cleaned, EscapeAt, Unescaped, Hex;
    if len == 0 {
      NothingCleaned(false);
      return [SLASH];
    }
    ghost var raw := rawPath[..len];
    var lastSlash, out, i := false, 0, 0;
    assert raw[0..] == raw && [] + Cleaned(raw, false) == Cleaned(raw, false);
    while i < len
      invariant out <= i <= len
      invariant forall k :: i <= k < len ==> rawPath[k] == raw[k]
      invariant rawPath[0..out] + Cleaned(raw[i..], lastSlash) == Cleaned(raw, false)
    {
      OneByte(raw, i, lastSlash, rawPath[0..out]);
      var c := rawPath[i];
      if c == PERCENT && i + 2 < len {
        out := Put(rawPath, 0, out, (Hex(rawPath[i + 1]) << 4) | Hex(rawPath[i + 2]));
        i, lastSlash := i + 3, false;
      } else if c == PLUS {
        out := Put(rawPath, 0, out, SPACE);
        i, lastSlash := i + 1, false;
      } else if c == SLASH {
        if !lastSlash {
          out := Put(rawPath, 0, out, SLASH);
        }
        i, lastSlash := i + 1, true;
      } else {
        out := Put(rawPath, 0, out, c);
        i, lastSlash := i + 1, false;
      }
    }
    NothingCleaned(lastSlash);
    assert raw[len..] == [];
    path := rawPath[0..out];
    assert path + [] == path;
    if path == [] || path[0] != SLASH {
      path := [SLASH] + path;
    }
  }

  lemma NothingCleaned(lastSlash: bool)
    ensures Cleaned([], lastSlash) == []
  {
  }

  lemma OneByte(raw: Bytes, i: nat, lastSlash: bool, done: Bytes)
    requires i < |raw|
    ensures done + Cleaned(raw[i..], lastSlash) ==
            if raw[i] == PERCENT && i + 2 < |raw|
            then (done + [(Hex(raw[i + 1]) << 4) | Hex(raw[i + 2])]) + Cleaned(raw[i + 3..], false)
            else if raw[i] == PLUS then (done + [SPACE]) + Cleaned(raw[i + 1..], false)
            else if raw[i] == SLASH then (if lastSlash then done else done + [SLASH]) + Cleaned(raw[i + 1..], true)
            else (done + [raw[i]]) + Cleaned(raw[i + 1..], false)
  {
    hide Hex, Cleaned;
    FirstByte(raw, i, lastSlash);
    if raw[i] == PERCENT && i + 2 < |raw| {
      PutAfter(done, (Hex(raw[i + 1]) << 4) | Hex(raw[i + 2]), Cleaned(raw[i + 3..], false));
    } else if raw[i] == SLASH {
      PutAfter(done, SLASH, Cleaned(raw[i + 1..], true));
    } else {
      PutAfter(done, if raw[i] == PLUS then SPACE else raw[i], Cleaned(raw[i + 1..], false));
    }
  }

  lemma FirstByte(raw: Bytes, i: nat, lastSlash: bool)
    requires i < |raw|
    ensures Cleaned(raw[i..], lastSlash) ==
            if raw[i] == PERCENT && i + 2 < |raw|
            then [(Hex(raw[i + 1]) << 4) | Hex(raw[i + 2])] + Cleaned(raw[i + 3..], false)
            else if raw[i] == PLUS then [SPACE] + Cleaned(raw[i + 1..], false)
            else if raw[i] == SLASH then
              if lastSlash then Cleaned(raw[i + 1..], true) else [SLASH] + Cleaned(raw[i + 1..], true)
            else [raw[i]] + Cleaned(raw[i + 1..], false)
  {
    hide Hex;
    var rest := raw[i..];
    assert raw[i + 1..] == rest[1..];
    assert [] + Cleaned(rest[1..], true) == Cleaned(rest[1..], true);
    if EscapeAt(rest) {
      assert raw[i + 3..] == rest[3..];
    }
  }

  lemma PutAfter(done: Bytes, b: bv8, rest: Bytes)
    ensures done + ([b] + rest) == (done + [b]) + rest
  {
  }

  // ----- Where slashes still meet --------------------------------------------------------------

  predicate Doubled(path: Bytes) {
    |path| >= 2 && ((path[0] == SLASH && path[1] == SLASH) || Doubled(path[1..]))
  }

  /** An escaped slash has another slash beside it. */
  predicate Beside(raw: Bytes, last: Last) {
    if raw == [] then false
    else if EscapeAt(raw) then
      if Unescaped(raw) == SLASH then last != Other || Beside(raw[3..], EscapedSlash) else Beside(raw[3..], Other)
    else if raw[0] == SLASH then last == EscapedSlash || Beside(raw[1..], PlainSlash)
    else Beside(raw[1..], Other)
  }

  lemma {:induction false} CleanedDoubles(raw: Bytes, last: Last)
    ensures Doubled((if last == Other then [] else [SLASH]) + Cleaned(raw, last == PlainSlash)) <==> Beside(raw, last)
    decreases |raw|
  {
    hide Unescaped;
    var before := if last == Other then [] else [SLASH];
    var path := Cleaned(raw, last == PlainSlash);
    if raw == [] {
    } else if EscapeAt(raw) {
      CleanedDoubles(raw[3..], if Unescaped(raw) == SLASH then EscapedSlash else Other);
      DoubledMore(before, Unescaped(raw), Cleaned(raw[3..], false));
    } else if raw[0] == SLASH {
      CleanedDoubles(raw[1..], PlainSlash);
      if last == PlainSlash {
        assert path == Cleaned(raw[1..], true);
      } else {
        DoubledMore(before, SLASH, Cleaned(raw[1..], true));
      }
    } else {
      CleanedDoubles(raw[1..], Other);
      DoubledMore(before, path[0], Cleaned(raw[1..], false));
    }
  }

  lemma DoubledMore(before: Bytes, b: bv8, rest: Bytes)
    requires before == [] || before == [SLASH]
    ensures Doubled(before + ([b] + rest))
            <==> (before == [SLASH] && b == SLASH) || Doubled((if b == SLASH then [SLASH] else []) + rest)
  {
    assert ([b] + rest)[1..] == rest;
    assert [] + rest == rest && [] + ([b] + rest) == [b] + rest;
    if before == [SLASH] {
      assert (before + ([b] + rest))[1..] == [b] + rest;
    }
  }

  /** A path holds two slashes in a row if and only if an escaped slash stood beside another. */
  lemma DoubledIfBeside(raw: Bytes)
    ensures Doubled(PathOf(raw)) <==> Beside(raw, Other)
  {
    CleanedDoubles(raw, Other);
    var path := Cleaned(raw, false);
    assert [] + path == path;
    if path == [] || path[0] != SLASH {
      assert ([SLASH] + path)[1..] == path;
    }
  }

  // ----- Escaped paths -------------------------------------------------------------------------

  /** A path without the slashes right after another. */
  function Collapsed(text: Bytes, lastSlash: bool): Bytes {
    if text == [] then []
    else if text[0] == SLASH && lastSlash then Collapsed(text[1..], true)
    else [text[0]] + Collapsed(text[1..], text[0] == SLASH)
  }

  lemma {:induction false} CollapsedIsShorter(text: Bytes, lastSlash: bool)
    ensures |Collapsed(text, lastSlash)| <= |text|
    ensures Collapsed(text, lastSlash) == text <==> !Doubled((if lastSlash then [SLASH] else []) + text)
    decreases |text|
  {
    if text == [] {
    } else {
      CollapsedIsShorter(text[1..], text[0] == SLASH);
      CollapsedIsShorter(text[1..], true);
      assert text == [text[0]] + text[1..];
      DoubledMore(if lastSlash then [SLASH] else [], text[0], text[1..]);
    }
  }

  /** A path that was escaped in any way is cleaned to itself; slashes that were not escaped collapse. */
  lemma {:induction false} EscapedIsCleaned(text: Bytes, keep: set<bv8>, style: Style, at: nat, lastSlash: bool)
    requires PERCENT !in keep && PLUS !in keep && (SLASH !in keep ==> !lastSlash)
    ensures Cleaned(Escape(text, keep, style, at), lastSlash)
            == if SLASH in keep then Collapsed(text, lastSlash) else text
    decreases |text|
  {
    hide EscapeByte, Cleaned;
    if text == [] {
      NothingCleaned(lastSlash);
    } else {
      var b, more := text[0], Escape(text[1..], keep, style, at + 2);
      EscapedByte(b, keep, style, at, lastSlash, more);
      EscapedIsCleaned(text[1..], keep, style, at + 2, b == SLASH && SLASH in keep);
      assert text == [b] + text[1..];
    }
  }

  lemma EscapedByte(b: bv8, keep: set<bv8>, style: Style, at: nat, lastSlash: bool, more: Bytes)
    requires PERCENT !in keep && PLUS !in keep && (SLASH !in keep ==> !lastSlash)
    ensures Cleaned(EscapeByte(b, keep, style, at) + more, lastSlash)
            == (if b == SLASH && SLASH in keep && lastSlash then [] else [b])
               + Cleaned(more, b == SLASH && SLASH in keep)
  {
    hide Hex, Digit;
    if b in keep {
      assert ([b] + more)[1..] == more;
    } else if b == 0x20 && style.plus(at) {
      assert ([PLUS] + more)[1..] == more;
    } else {
      OneEscaped(b, style.lower(at), style.lower(at + 1), lastSlash, more);
    }
  }

  lemma OneEscaped(b: bv8, l: bool, m: bool, lastSlash: bool, more: Bytes)
    ensures Cleaned([PERCENT, Digit(b >> 4, l), Digit(b & 0xf, m)] + more, lastSlash) == [b] + Cleaned(more, false)
  {
    DigitValue(b, l, m);
    hide Hex, Digit;
    var h, k := Digit(b >> 4, l), Digit(b & 0xf, m);
    assert ([PERCENT, h, k] + more)[3..] == more;
  }

  /** A path sent with any bytes escaped, in any case, is received as the path if and only if it begins with
      a slash and, where slashes are sent as they are, holds no two in a row. */
  lemma SentPathIsReceived(text: Bytes, keep: set<bv8>, style: Style)
    requires PERCENT !in keep && PLUS !in keep
    ensures PathOf(Escape(text, keep, style, 0)) == text
            <==> text != [] && text[0] == SLASH && (SLASH in keep ==> !Doubled(text))
  {
    EscapedIsCleaned(text, keep, style, 0, false);
    CollapsedIsShorter(text, false);
    assert [] + text == text;
    FirstStays(text);
    RootedIs(if SLASH in keep then Collapsed(text, false) else text, text);
  }

  lemma FirstStays(text: Bytes)
    ensures text != [] ==> Collapsed(text, false) != [] && Collapsed(text, false)[0] == text[0]
  {
  }

  lemma RootedIs(cleaned: Bytes, text: Bytes)
    requires |cleaned| <= |text| && (text != [] ==> cleaned != [] && cleaned[0] == text[0])
    ensures Rooted(cleaned) == text <==> text != [] && text[0] == SLASH && cleaned == text
  {
  }

  // ----- What dispatch makes of it -------------------------------------------------------------

  /** Unless an escaped slash stood beside another, parts taken off a path can be put back. */
  lemma RejoinsUnlessBeside(raw: Bytes, k: nat)
    requires !Beside(raw, Other)
    ensures PathDispatch.Rooted(Latin1(PathOf(raw)))
    ensures var path := Latin1(PathOf(raw));
            k <= PathDispatch.Depth(path) ==> PathDispatch.Rejoined(path, k) == path
  {
    var path := Latin1(PathOf(raw));
    DoubledIfBeside(raw);
    assert path[0] == '/';
    if k <= PathDispatch.Depth(path) {
      PathDispatch.PartsRejoin(path, k);
      if |path| > 1 {
        assert path[1] != '/';
      }
    }
  }

  /** An escaped percent sign is unescaped with the path, and what follows it once more with the arguments
      of a chained action. */
  lemma UnescapedTwice()
    ensures Latin1(PathOf([SLASH, PERCENT, 0x32, 0x35, 0x34, 0x31])) == "/%41"
    ensures DecodedArgument("%41") == "A"
  {
    UnescapedOnce();
    UnescapedAgain();
  }

  lemma UnescapedOnce()
    ensures PathOf([SLASH, PERCENT, 0x32, 0x35, 0x34, 0x31]) == [SLASH, PERCENT, 0x34, 0x31]
  {
    var raw: Bytes := [SLASH, PERCENT, 0x32, 0x35, 0x34, 0x31];
    assert raw[1..] == [PERCENT, 0x32, 0x35, 0x34, 0x31] && raw[1..][3..] == [0x34, 0x31];
    assert Hex(0x32) == 2 && Hex(0x35) == 5;
    assert Unescaped(raw[1..]) == PERCENT;
    hide Unescaped, Hex;
    assert [0x34 as bv8, 0x31][1..] == [0x31];
    assert Cleaned([0x31], false) == [0x31] && Cleaned([0x34, 0x31], false) == [0x34, 0x31];
    assert Cleaned(raw[1..], true) == [PERCENT, 0x34, 0x31];
  }

  lemma UnescapedAgain()
    ensures DecodedArgument("%41") == "A"
  {
    var bytes := ToLatin1("%41");
    assert bytes == [PERCENT, 0x34, 0x31] && bytes[0] == PERCENT;
    assert Hex(0x34) == 4 && Hex(0x31) == 1 && (4 as bv8 << 4) | 1 == 0x41;
    assert bytes[3..] == [] && Tokens(bytes) == [Literal(0x41)];
    assert [Literal(0x41)][1..] == [] && TextOf([Literal(0x41)]) == [0x41];
  }

  /** One escape makes the dispatcher lose a slash. */
  lemma EscapedSlashIsLost()
    ensures Latin1(PathOf([SLASH, PERCENT, 0x32, 0x46, 0x61])) == "//a"
    ensures PathDispatch.Prefix("//a", 1) == "/" && PathDispatch.TakenArgs("//a", 1) == ["a"]
    ensures PathDispatch.Rejoined("//a", 1) == "/a"
  {
    var raw: Bytes := [SLASH, PERCENT, 0x32, 0x46, 0x61];
    assert raw[1..] == [PERCENT, 0x32, 0x46, 0x61] && raw[1..][3..] == [0x61];
    assert Cleaned([0x61], false) == [0x61];
    assert Unescaped(raw[1..]) == SLASH;
    assert Cleaned(raw[1..], true) == [SLASH, 0x61];
    assert PathOf(raw) == [SLASH, SLASH, 0x61];
    SplitPlain("a");
    assert "//a"[1..] == "/a" && "/a"[1..] == "a";
    assert Split("/a") == ["", "a"];
  }
}
