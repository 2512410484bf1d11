/** The arguments of a chained action: what is left of the path, unescaped once more. */
module Arguments {
  import opened Basics
  import opened QueryString

  /** `QString::toLatin1`. */
  function ToLatin1(s: string): (bytes: Bytes)
    ensures |bytes| == |s|
  {
    seq(|s|, i requires 0 <= i < |s| => if s[i] as int < 256 then s[i] as int as bv8 else 0x3f)
  }

  /** `QString::fromLatin1`. */
  function Latin1(bytes: Bytes): (s: string)
    ensures |s| == |bytes| && forall i :: 0 <= i < |bytes| ==> s[i] == bytes[i] as char
  {
    seq(|bytes|, i requires 0 <= i < |bytes| => bytes[i] as char)
  }

  /** The text that tokens stand for; `=` and `&` mean nothing here. */
  function TextOf(tokens: seq<Token>): (text: Bytes)
    ensures |text| == |tokens|
  {
    if tokens == [] then []
    else
      [match tokens[0] case Literal(b) => b case Equal => EQUALS case And => AMPERSAND] + TextOf(tokens[1..])
  }

  /** There is a percent sign with two characters after it. */
  ghost predicate HasEscape(raw: Bytes) {
    exists i :: 0 <= i && i + 2 < |raw| && raw[i] == PERCENT
  }

  /** Without an escape nothing changes, plus signs included. */
  ghost function Received(raw: Bytes): Bytes {
    if HasEscape(raw) then TextOf(Tokens(raw)) else raw
  }

  ghost function DecodedArgument(s: string): string {
    if HasEscape(ToLatin1(s)) then Latin1(TextOf(Tokens(ToLatin1(s)))) else s
  }

  ghost function DecodedArguments(parts: seq<string>): seq<string> {
    seq(|parts|, i requires 0 <= i < |parts| => DecodedArgument(parts[i]))
  }

  /** `Utils::decodePercentEncoding(QString *)`, which writes over its bytes behind the reading position. */
  method DecodePercentEncoding(s: string) returns (r: string)
    ensures r == DecodedArgument(s)
  {
    hide Tokens, Hex, TokenOf, TextOf, NoEscapeBefore, HasEscape, ToLatin1, Latin1;
    if s == "" {
      NothingThere();
      return s;
    }
    var raw := ToLatin1(s);
    var data := new bv8[|raw|](i requires 0 <= i < |raw| => raw[i]);
    var skipUtf8, out, i := true, 0, 0;
    AtTheStart(raw);
    while i < |raw|
      invariant out <= i <= |raw|
      invariant forall k :: i <= k < |raw| ==> data[k] == raw[k]
      invariant data[0..out] + TextOf(Tokens(raw[i..])) == TextOf(Tokens(raw))
      invariant skipUtf8 <==> NoEscapeBefore(raw, i)
    {
      EscapeAhead(raw, i);
      skipUtf8 := skipUtf8 && !(data[i] == PERCENT && i + 2 < |raw|);
      i, out := Turn(data, raw, i, out);
    }
    AtTheEnd(raw, data[0..out]);
    assert raw[i..] == raw[|raw|..];
    if skipUtf8 {
      return s;
    }
    r := Latin1(data[0..out]);
  }

  /** One byte, or one escape. */
  method Turn(data: array<bv8>, ghost raw: Bytes, i: nat, out: nat) returns (next: nat, written: nat)
    requires out <= i < |raw| == data.Length && forall k :: i <= k < |raw| ==> data[k] == raw[k]
    modifies data
    ensures next == (if raw[i] == PERCENT && i + 2 < |raw| then i + 3 else i + 1) && written == out + 1
    ensures forall k :: next <= k < |raw| ==> data[k] == raw[k]
    ensures data[0..written] + TextOf(Tokens(raw[next..])) == old(data[0..out]) + TextOf(Tokens(raw[i..]))
  {
    hide Tokens, Hex, TokenOf, TextOf;
    OneToken(raw, i, data[0..out]);
    var c := data[i];
    if c == PERCENT && i + 2 < data.Length {
      written := Put(data, 0, out, (Hex(data[i + 1]) << 4) | Hex(data[i + 2]));
      next := i + 3;
    } else {
      written := Put(data, 0, out, if c == PLUS then 0x20 else c);
      next := i + 1;
    }
  }

  ghost predicate NoEscapeBefore(raw: Bytes, i: nat) {
    forall k :: 0 <= k < i && k + 2 < |raw| ==> raw[k] != PERCENT
  }

  lemma EscapeAhead(raw: Bytes, i: nat)
    requires i < |raw|
    ensures if raw[i] == PERCENT && i + 2 < |raw| then !NoEscapeBefore(raw, i + 3)
            else NoEscapeBefore(raw, i + 1) <==> NoEscapeBefore(raw, i)
  {
  }

  lemma NothingThere()
    ensures !HasEscape(ToLatin1(""))
  {
  }

  lemma AtTheStart(raw: Bytes)
    ensures NoEscapeBefore(raw, 0)
    ensures raw[0..] == raw && [] + TextOf(Tokens(raw)) == TextOf(Tokens(raw))
  {
  }

  lemma AtTheEnd(raw: Bytes, done: Bytes)
    ensures done + TextOf(Tokens(raw[|raw|..])) == done
    ensures NoEscapeBefore(raw, |raw|) <==> !HasEscape(raw)
  {
  }

  lemma OneToken(raw: Bytes, i: nat, done: Bytes)
    requires i < |raw|
    ensures done + TextOf(Tokens(raw[i..])) ==
            if raw[i] == PERCENT && i + 2 < |raw|
            then (done + [(Hex(raw[i + 1]) << 4) | Hex(raw[i + 2])]) + TextOf(Tokens(raw[i + 3..]))
            else (done + [if raw[i] == PLUS then 0x20 else raw[i]]) + TextOf(Tokens(raw[i + 1..]))
  {
    hide Tokens, Hex;
    NextToken(raw, i);
    if raw[i] == PERCENT && i + 2 < |raw| {
      OneText(Literal((Hex(raw[i + 1]) << 4) | Hex(raw[i + 2])), Tokens(raw[i + 3..]), done);
    } else {
      OneText(TokenOf(raw[i]), Tokens(raw[i + 1..]), done);
    }
  }

  lemma OneText(token: Token, more: seq<Token>, done: Bytes)
    ensures done + TextOf([token] + more)
            == (done + [match token case Literal(b) => b case Equal => EQUALS case And => AMPERSAND]) + TextOf(more)
  {
    assert ([token] + more)[1..] == more;
  }

  /** `Match` decodes every part that is left. */
  method DecodeAll(parts: seq<string>) returns (args: seq<string>)
    ensures args == DecodedArguments(parts)
  {
    hide DecodedArgument;
    args := [];
    for i := 0 to |parts|
      invariant args == DecodedArguments(parts[..i])
    {
      var aux := DecodePercentEncoding(parts[i]);
      args := args + [aux];
    }
    assert parts[..|parts|] == parts;
  }

  // ----- What is kept --------------------------------------------------------------------------

  /** What is escaped in an argument stands for itself; `=` and `&` do, escaped or not. */
  lemma {:induction false} TextRead(text: Bytes, keep: set<bv8>, style: Style, at: nat)
    requires PERCENT !in keep && PLUS !in keep
    ensures TextOf(Tokens(Escape(text, keep, style, at))) == text
    decreases |text|
  {
    hide EscapeByte, Tokens, TextOf;
    if text == [] {
      AtTheEnd([], []);
      assert [] + TextOf(Tokens([])) == TextOf(Tokens([]));
    } else {
      var more := Escape(text[1..], keep, style, at + 2);
      ByteRead(text[0], keep, style, at, more);
      TextRead(text[1..], keep, style, at + 2);
      assert text == [text[0]] + text[1..];
    }
  }

  lemma ByteRead(b: bv8, keep: set<bv8>, style: Style, at: nat, more: Bytes)
    requires PERCENT !in keep && PLUS !in keep
    ensures TextOf(Tokens(EscapeByte(b, keep, style, at) + more)) == [b] + TextOf(Tokens(more))
  {
    hide Tokens, TextOf, Hex, Digit;
    if b in keep {
      OneByte(b, more);
      FirstText(TokenOf(b), Tokens(more));
    } else if b == 0x20 && style.plus(at) {
      OneByte(PLUS, more);
      FirstText(TokenOf(PLUS), Tokens(more));
    } else {
      OneEscape(b, style.lower(at), style.lower(at + 1), more);
      FirstText(Literal(b), Tokens(more));
    }
  }

  lemma FirstText(token: Token, more: seq<Token>)
    ensures TextOf([token] + more)
            == [match token case Literal(b) => b case Equal => EQUALS case And => AMPERSAND] + TextOf(more)
  {
    assert ([token] + more)[1..] == more;
  }

  /** Latin-1 text goes to bytes and back; any other character becomes a question mark. */
  lemma ThereAndBack(s: string)
    ensures var back := Latin1(ToLatin1(s));
            && |back| == |s| && forall i :: 0 <= i < |s| ==> back[i] == if s[i] <= 255 as char then s[i] else '?'
  {
    forall i | 0 <= i < |s|
      ensures Latin1(ToLatin1(s))[i] == if s[i] <= 255 as char then s[i] else '?'
    {
      ByteOf(s[i]);
      QuestionMark();
    }
  }

  lemma ByteOf(c: char)
    ensures c as int < 256 ==> (c as int as bv8) as char == c
  {
    if c as int < 256 {
      ByteThereAndBack(c as int);
    }
  }

  lemma QuestionMark()
    ensures (0x3f as bv8) as char == '?'
  {
  }

  /** Escaped text is received as it was, unless a space was written as a plus sign and nothing was escaped. */
  lemma EscapedIsReceived(text: Bytes, keep: set<bv8>, style: Style)
    requires PERCENT !in keep && PLUS !in keep
    ensures var raw := Escape(text, keep, style, 0);
            Received(raw) == text <==> HasEscape(raw) || PLUS !in raw
  {
    var raw := Escape(text, keep, style, 0);
    TextRead(text, keep, style, 0);
    if !HasEscape(raw) {
      NothingEscaped(text, keep, style, 0);
    }
  }

  lemma EscapeShows(b: bv8, keep: set<bv8>, style: Style, at: nat, more: Bytes)
    ensures !HasEscape(EscapeByte(b, keep, style, at) + more) ==>
              EscapeByte(b, keep, style, at) == [b] || (EscapeByte(b, keep, style, at) == [PLUS] && b == 0x20)
  {
    if b !in keep && !(b == 0x20 && style.plus(at)) {
      assert (EscapeByte(b, keep, style, at) + more)[0] == PERCENT;
    }
  }

  lemma {:induction false} NothingEscaped(text: Bytes, keep: set<bv8>, style: Style, at: nat)
    requires PERCENT !in keep && PLUS !in keep && !HasEscape(Escape(text, keep, style, at))
    ensures Escape(text, keep, style, at) == text <==> PLUS !in Escape(text, keep, style, at)
    decreases |text|
  {
    if text == [] {
    } else {
      var first, more := EscapeByte(text[0], keep, style, at), Escape(text[1..], keep, style, at + 2);
      EscapeShows(text[0], keep, style, at, more);
      forall i | 0 <= i && i + 2 < |more|
        ensures more[i] != PERCENT
      {
        assert (first + more)[i + 1] == more[i];
      }
      NothingEscaped(text[1..], keep, style, at + 2);
      assert (first + more)[1..] == more && (first + more)[0] == first[0];
      assert PLUS in first + more <==> PLUS in first || PLUS in more;
    }
  }

  /** An argument is kept if and only if it holds no escape, although its path was unescaped before. */
  lemma ArgumentKept(s: string)
    ensures DecodedArgument(s) == s <==> !HasEscape(ToLatin1(s))
  {
    if HasEscape(ToLatin1(s)) {
      EscapesShorten(ToLatin1(s));
    }
  }

  lemma {:induction false} EscapesShorten(raw: Bytes)
    ensures |Tokens(raw)| <= |raw| && (HasEscape(raw) ==> |Tokens(raw)| < |raw|)
    decreases |raw|
  {
    if raw == [] {
    } else if raw[0] == PERCENT && |raw| > 2 {
      EscapesShorten(raw[3..]);
    } else {
      EscapesShorten(raw[1..]);
      if HasEscape(raw) {
        var i :| 0 <= i && i + 2 < |raw| && raw[i] == PERCENT;
        assert raw[1..][i - 1] == PERCENT;
      }
    }
  }
}
