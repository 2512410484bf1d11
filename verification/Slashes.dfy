/** Paths as lists of parts: `QStringList::join('/')` and `QString::split('/')`. */
module Slashes {

  /** A part of a path never holds the separator. */
  ghost predicate Plain(parts: seq<string>) {
    forall i :: 0 <= i < |parts| ==> PlainPart(parts[i])
  }

  predicate PlainPart(part: string) {
    '/' !in part
  }

  function Join(parts: seq<string>): string {
    if |parts| == 0 then ""
    else if |parts| == 1 then parts[0]
    else parts[0] + "/" + Join(parts[1..])
  }

  function Split(s: string): (parts: seq<string>)
    ensures |parts| > 0
    ensures Plain(parts)
  {
    if s == "" then [""]
    else
      var rest := Split(s[1..]);
      if s[0] == '/' then [""] + rest else [[s[0]] + rest[0]] + rest[1..]
  }

  /** `QString::count('/')`. */
  function CountSlashes(s: string): nat {
    if s == "" then 0 else (if s[0] == '/' then 1 else 0) + CountSlashes(s[1..])
  }

  lemma {:induction false} JoinSplit(s: string)
    ensures Join(Split(s)) == s
  {
    if s == "" {
      assert Join([""]) == "";
    } else {
      hide Join;
      JoinSplit(s[1..]);
      var rest := Split(s[1..]);
      if s[0] == '/' {
        SlashFirst(rest);
      } else {
        CharFirst(s[0], rest);
      }
      assert s == [s[0]] + s[1..];
    }
  }

  lemma SlashFirst(rest: seq<string>)
    requires rest != []
    ensures Join([""] + rest) == "/" + Join(rest)
  {
    assert ([""] + rest)[1..] == rest;
  }

  lemma CharFirst(c: char, rest: seq<string>)
    requires rest != []
    ensures Join([[c] + rest[0]] + rest[1..]) == [c] + Join(rest)
  {
    var parts := [[c] + rest[0]] + rest[1..];
    if |rest| > 1 {
      assert parts[1..] == rest[1..];
      assert ([c] + rest[0]) + "/" + Join(rest[1..]) == [c] + (rest[0] + "/" + Join(rest[1..]));
    }
  }

  lemma {:induction false} JoinConcat(a: seq<string>, b: seq<string>)
    requires a != [] && b != []
    ensures Join(a + b) == Join(a) + "/" + Join(b)
  {
    assert (a + b)[1..] == a[1..] + b;
    if |a| > 1 {
      JoinConcat(a[1..], b);
    }
  }

  lemma {:induction false} SplitPlain(s: string)
    requires PlainPart(s)
    ensures Split(s) == [s]
  {
    if s == "" {
    } else {
      SplitPlain(s[1..]);
      assert [s[0]] + s[1..] == s;
    }
  }

  lemma {:induction false} SplitConcat(p: string, s: string)
    requires PlainPart(p)
    ensures Split(p + "/" + s) == [p] + Split(s)
  {
    var whole := p + "/" + s;
    if p == "" {
      assert whole[1..] == s;
    } else {
      SplitConcat(p[1..], s);
      assert whole[1..] == p[1..] + "/" + s;
      assert [p[0]] + p[1..] == p;
      assert ([p[1..]] + Split(s))[1..] == Split(s);
    }
  }

  lemma {:induction false} SplitJoin(parts: seq<string>)
    requires parts != [] && Plain(parts)
    ensures Split(Join(parts)) == parts
  {
    if |parts| == 1 {
      SplitPlain(parts[0]);
    } else {
      SplitJoin(parts[1..]);
      SplitConcat(parts[0], Join(parts[1..]));
    }
  }

  lemma {:induction false} CountConcat(a: string, b: string)
    ensures CountSlashes(a + b) == CountSlashes(a) + CountSlashes(b)
  {
    if a == "" {
      assert a + b == b;
    } else {
      CountConcat(a[1..], b);
      assert (a + b)[1..] == a[1..] + b;
    }
  }

  lemma {:induction false} CountPlain(s: string)
    requires PlainPart(s)
    ensures CountSlashes(s) == 0
  {
    if s == "" {
    } else {
      CountPlain(s[1..]);
    }
  }

  /** The number of separators tells how many parts were joined. */
  lemma {:induction false} CountJoin(parts: seq<string>)
    requires parts != [] && Plain(parts)
    ensures CountSlashes(Join(parts)) == |parts| - 1
  {
    CountPlain(parts[0]);
    if |parts| > 1 {
      CountJoin(parts[1..]);
      CountConcat(parts[0] + "/", Join(parts[1..]));
      CountConcat(parts[0], "/");
    }
  }

  /** Joining more of the same parts gives a strictly longer string. */
  lemma JoinPrefixLonger(parts: seq<string>, j: nat, k: nat)
    requires 1 <= j < k <= |parts|
    ensures |Join(parts[..j])| < |Join(parts[..k])|
  {
    assert parts[..k] == parts[..j] + parts[j..k];
    JoinConcat(parts[..j], parts[j..k]);
  }
}
