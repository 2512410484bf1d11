/** The dynamic table of the HTTP/2 header decoder (RFC 7541, sections 4.1 to 4.4). */
module HpackTable {

  type Bytes = seq<bv8>

  datatype Entry = Entry(key: Bytes, value: Bytes) {
    function Size(): (n: nat)
      ensures n >= 32
    {
      |key| + |value| + 32
    }
  }

  /** What an encoder may ask of the table. */
  datatype Op = Insert(entry: Entry) | Resize(max: nat)

  function KeyBytes(entries: seq<Entry>): nat {
    if entries == [] then 0 else |entries[0].key| + KeyBytes(entries[1..])
  }

  function ValueBytes(entries: seq<Entry>): nat {
    if entries == [] then 0 else |entries[0].value| + ValueBytes(entries[1..])
  }

  /** What entries weigh (RFC 7541, section 4.1): their names, their values, and 32 for each. */
  function SizeOf(entries: seq<Entry>): nat {
    KeyBytes(entries) + ValueBytes(entries) + 32 * |entries|
  }

  /** The entries that fit, the newest first. */
  function Fitting(entries: seq<Entry>, max: int): seq<Entry> {
    if entries == [] || entries[0].Size() > max then []
    else [entries[0]] + Fitting(entries[1..], max - entries[0].Size())
  }

  lemma {:induction false} FittingIsLongest(entries: seq<Entry>, max: nat)
    ensures Fitting(entries, max) <= entries && SizeOf(Fitting(entries, max)) <= max
    ensures forall k | |Fitting(entries, max)| < k <= |entries| :: SizeOf(entries[..k]) > max
  {
    if entries == [] {
    } else {
      if entries[0].Size() <= max {
        FittingIsLongest(entries[1..], max - entries[0].Size());
      }
      forall k | |Fitting(entries, max)| < k <= |entries|
        ensures SizeOf(entries[..k]) > max
      {
        assert entries[..k][1..] == entries[1..][..k - 1];
      }
    }
  }

  lemma {:induction false} SizeOfLast(entries: seq<Entry>)
    requires entries != []
    ensures SizeOf(entries) == SizeOf(entries[..|entries| - 1]) + entries[|entries| - 1].Size()
  {
    if |entries| > 1 {
      SizeOfLast(entries[1..]);
      assert entries[..|entries| - 1][1..] == entries[1..][..|entries| - 2];
    } else {
      assert entries[..0] == [] && entries[1..] == [];
    }
  }

  lemma {:induction false} SizeOfPrefix(entries: seq<Entry>, k: nat)
    requires k <= |entries|
    ensures SizeOf(entries[..k]) <= SizeOf(entries)
  {
    if k > 0 {
      SizeOfPrefix(entries[1..], k - 1);
      assert entries[..k][1..] == entries[1..][..k - 1];
    }
  }

  lemma SizeMonotone(entries: seq<Entry>, a: nat, b: nat)
    requires a <= b <= |entries|
    ensures SizeOf(entries[..a]) <= SizeOf(entries[..b])
  {
    SizeOfPrefix(entries[..b], a);
    assert entries[..b][..a] == entries[..a];
  }

  /** A prefix that fits while one entry more does not is the one. */
  lemma FittingIs(entries: seq<Entry>, k: nat, max: nat)
    requires k <= |entries| && SizeOf(entries[..k]) <= max
    requires k < |entries| ==> SizeOf(entries[..k + 1]) > max
    ensures Fitting(entries, max) == entries[..k]
  {
    FittingIsLongest(entries, max);
    var n := |Fitting(entries, max)|;
    assert Fitting(entries, max) == entries[..n];
    if n > k {
      SizeMonotone(entries, k + 1, n);
    }
  }

  class DynamicTable {
    var entries: seq<Entry>
    var size: int
    var currentMax: nat
    const maxTableSize: nat

    /** The recorded size is that of the entries, with 32 for each; it is at most the current maximum,
        which is at most the configured one. */
    ghost predicate Valid()
      reads this
    {
      size == SizeOf(entries) <= currentMax <= maxTableSize
    }

    constructor (maxTableSize: nat)
      ensures Valid() && entries == [] && this.maxTableSize == maxTableSize && currentMax == maxTableSize
    {
      entries, size, currentMax, this.maxTableSize := [], 0, maxTableSize, maxTableSize;
    }

    /** A size update; more than the configured maximum is an error. */
    method UpdateSize(max: nat) returns (ok: bool)
      requires Valid()
      modifies this
      ensures Valid() && ok == (max <= maxTableSize)
      ensures ok ==> currentMax == max && entries == Fitting(old(entries), max)
      ensures !ok ==> entries == old(entries) && currentMax == old(currentMax)
    {
      if max > maxTableSize {
        return false;
      }
      currentMax := max;
      assert entries == old(entries)[..|entries|];
      while size > currentMax && entries != []
        invariant |entries| <= |old(entries)| && entries == old(entries)[..|entries|] && size == SizeOf(entries)
        invariant |entries| < |old(entries)| ==> SizeOf(old(entries)[..|entries| + 1]) > max
        invariant currentMax == max
        decreases |entries|
      {
        TakeLast();
      }
      FittingIs(old(entries), |entries|, max);
      ok := true;
    }

    /** A new entry pushes out the oldest until it fits; one that is too big empties the table. */
    method Add(entry: Entry)
      requires Valid()
      modifies this
      ensures Valid() && currentMax == old(currentMax)
      ensures entries == Fitting([entry] + old(entries), currentMax)
    {
      hide SizeOf, Fitting;
      var n := entry.Size();
      ghost var all := [entry] + entries;
      OneMore(entry, entries, |entries|);
      assert entries == old(entries)[..|entries|];
      while n + size > currentMax && entries != []
        invariant |entries| <= |old(entries)| && entries == old(entries)[..|entries|]
                  && size == SizeOf(entries) <= currentMax
        invariant SizeOf(all[..|entries| + 1]) == n + size
        invariant |entries| < |old(entries)| ==> SizeOf(all[..|entries| + 2]) > currentMax
        invariant currentMax == old(currentMax)
        decreases |entries|
      {
        TakeLast();
        OneMore(entry, old(entries), |entries|);
      }
      if n + size <= currentMax {
        entries := [entry] + entries;
        size := size + n;
        OneMore(entry, old(entries), |entries| - 1);
        FittingIs(all, |entries|, currentMax);
      } else {
        assert SizeOf(all[..1]) > currentMax;
        FittingIs(all, 0, currentMax);
      }
    }

    lemma OneMore(entry: Entry, older: seq<Entry>, k: nat)
      requires k <= |older|
      ensures ([entry] + older)[..k + 1] == [entry] + older[..k]
      ensures SizeOf(([entry] + older)[..k + 1]) == entry.Size() + SizeOf(older[..k])
    {
      assert ([entry] + older)[..k + 1] == [entry] + older[..k];
      assert ([entry] + older[..k])[1..] == older[..k];
      if k == |older| {
        assert older[..k] == older;
      }
    }

    method TakeLast()
      requires entries != [] && size == SizeOf(entries)
      modifies this`entries, this`size
      ensures entries == old(entries)[..|old(entries)| - 1] && size == SizeOf(entries) <= old(size)
    {
      SizeOfLast(entries);
      size := size - entries[|entries| - 1].Size();
      entries := entries[..|entries| - 1];
    }
  }

  // ----- Whole runs ----------------------------------------------------------------------------

  datatype State = State(entries: seq<Entry>, max: nat)

  /** One request that is not refused. */
  function Step(s: State, op: Op): State {
    match op
    case Insert(e) => State(Fitting([e] + s.entries, s.max), s.max)
    case Resize(max) => State(Fitting(s.entries, max), max)
  }

  /** The table after some requests, the latest last. */
  function Run(ops: seq<Op>, max: nat): State {
    if ops == [] then State([], max) else Step(Run(ops[..|ops| - 1], max), ops[|ops| - 1])
  }

  /** Everything that was ever inserted, the newest first. */
  function Inserted(ops: seq<Op>): seq<Entry> {
    if ops == [] then []
    else
      var last := ops[|ops| - 1];
      (if last.Insert? then [last.entry] else []) + Inserted(ops[..|ops| - 1])
  }

  /** At every moment so far, as much of the newest k entries as was there then, fitted. */
  ghost predicate AlwaysFitted(ops: seq<Op>, max: nat, k: nat)
    requires k <= |Inserted(ops)|
    decreases |ops|
  {
    ops == [] ||
    var before := ops[..|ops| - 1];
    && SizeOf(Inserted(ops)[..k]) <= Run(ops, max).max
    && if ops[|ops| - 1].Insert? then k == 0 || AlwaysFitted(before, max, k - 1) else AlwaysFitted(before, max, k)
  }

  /** After any run the table is the longest run of newest entries that fitted all the time: nothing
      else was evicted, and nothing evicted comes back. */
  lemma {:induction false} LongestThatFitted(ops: seq<Op>, max: nat)
    ensures var t := Run(ops, max).entries;
            && |t| <= |Inserted(ops)| && t == Inserted(ops)[..|t|]
            && SizeOf(t) <= Run(ops, max).max
            && forall k: nat | k <= |Inserted(ops)| :: AlwaysFitted(ops, max, k) <==> k <= |t|
  {
    if ops == [] {
    } else {
      hide Fitting, SizeOf, Run, Inserted, AlwaysFitted;
      var before, last := ops[..|ops| - 1], ops[|ops| - 1];
      LongestThatFitted(before, max);
      OneOpMore(ops, max);
      var s, h, m := Run(before, max), Inserted(ops), Run(ops, max).max;
      var n := if last.Insert? then |s.entries| + 1 else |s.entries|;
      NewestFirst(s.entries, Inserted(before), last, h);
      FitsUpTo(h, n, m);
      forall k: nat | k <= |h|
        ensures AlwaysFitted(ops, max, k) <==> k <= |Run(ops, max).entries|
      {
        OneOpFitted(ops, max, k);
      }
    }
  }

  lemma OneOpMore(ops: seq<Op>, max: nat)
    requires ops != []
    ensures var before, last := ops[..|ops| - 1], ops[|ops| - 1];
            var s, t := Run(before, max), Run(ops, max);
            && t.entries == Fitting(if last.Insert? then [last.entry] + s.entries else s.entries, t.max)
            && Inserted(ops) == (if last.Insert? then [last.entry] else []) + Inserted(before)
  {
    hide Fitting;
  }

  lemma NewestFirst(entries: seq<Entry>, older: seq<Entry>, last: Op, h: seq<Entry>)
    requires |entries| <= |older| && entries == older[..|entries|]
    requires h == (if last.Insert? then [last.entry] else []) + older
    ensures |h| == if last.Insert? then |older| + 1 else |older|
    ensures if last.Insert? then [last.entry] + entries == h[..|entries| + 1] else entries == h[..|entries|]
  {
  }

  lemma OneOpFitted(ops: seq<Op>, max: nat, k: nat)
    requires ops != [] && k <= |Inserted(ops)|
    requires |Inserted(ops)|
             == if ops[|ops| - 1].Insert? then |Inserted(ops[..|ops| - 1])| + 1 else |Inserted(ops[..|ops| - 1])|
    ensures var before := ops[..|ops| - 1];
            AlwaysFitted(ops, max, k) <==>
              && SizeOf(Inserted(ops)[..k]) <= Run(ops, max).max
              && if ops[|ops| - 1].Insert? then k == 0 || AlwaysFitted(before, max, k - 1)
                 else AlwaysFitted(before, max, k)
  {
    hide SizeOf, Run, Inserted;
  }

  /** Of the newest n entries, those that fit are kept. */
  lemma FitsUpTo(h: seq<Entry>, n: nat, m: nat)
    requires n <= |h|
    ensures var t := Fitting(h[..n], m);
            && |t| <= n && t == h[..|t|] && SizeOf(t) <= m
            && forall k: nat | k <= n :: SizeOf(h[..k]) <= m <==> k <= |t|
  {
    hide Fitting, SizeOf;
    FittingIsLongest(h[..n], m);
    var t := Fitting(h[..n], m);
    assert t == h[..n][..|t|] == h[..|t|];
    forall k: nat | k <= n
      ensures SizeOf(h[..k]) <= m <==> k <= |t|
    {
      assert h[..n][..k] == h[..k];
      if k <= |t| {
        SizeMonotone(h, k, |t|);
      } else {
        assert SizeOf(h[..n][..k]) > m;
      }
    }
  }
}
