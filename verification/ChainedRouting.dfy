/** Chained actions: the registry of `DispatchTypeChained`, the best-match search and the two
    walks back from an action to the root. */
module ChainedRouting {
  import opened Basics
  import opened Slashes

  /** The attribute names the chained dispatcher looks at. */
  datatype Attr = Chained | PathPart | Args | CaptureArgs | Other(name: string)

  /** An action with its attributes: each attribute name has its values, newest first. */
  datatype Action = Action(name: string, reverse: string, attributes: map<Attr, seq<string>>,
                           numberOfArgs: int, numberOfCaptures: int)
  {
    function Values(key: Attr): seq<string> {
      if key in attributes then attributes[key] else []
    }

    function Value(key: Attr): string {
      if |Values(key)| > 0 then Values(key)[0] else ""
    }

    predicate Has(key: Attr) {
      |Values(key)| > 0
    }

    /** The name under which other actions chain to this one. */
    function Private(): string {
      "/" + reverse
    }

    function Parent(): string {
      Value(Attr.Chained)
    }

    function PathPart(): string {
      Value(Attr.PathPart)
    }

    predicate IsLink() {
      Has(Attr.CaptureArgs)
    }

    predicate Match(args: int) {
      numberOfArgs == -1 || numberOfArgs == args
    }

    predicate MatchCaptures(captures: int) {
      numberOfCaptures == -1 || numberOfCaptures == captures
    }
  }

  datatype Tables = Tables(endPoints: seq<Action>, actions: map<string, Action>,
                           childrenOf: map<string, map<string, seq<Action>>>)

  datatype Best = Best(actions: seq<Action>, captures: seq<string>, parts: seq<string>,
                       nPathParts: int, isNull: bool)

  const NO_BEST := Best([], [], [], 0, true)

  /** `QList::mid(0, n)` and `QList::mid(n)` around the captures of a link action. A negative
      count takes the whole list in both calls. */
  function CaptureSplit(a: Action, parts: seq<string>): (r: Option<(seq<string>, seq<string>)>) {
    var n := a.numberOfCaptures;
    if |parts| < n then None
    else
      var captures := if n >= 0 then parts[..n] else parts;
      if !a.MatchCaptures(|captures|) then None
      else Some((captures, if n >= 0 then parts[n..] else parts))
  }

  // ----- What the search computes ---------------------------------------------------------

  /** The best chain below `parent`: prefixes of the path are tried longest first, the actions
      registered under a prefix in their stored order. */
  function BestMatch(t: Tables, req: int, parent: string, parts: seq<string>): Best
    decreases |parts|, 3
  {
    if parent !in t.childrenOf then NO_BEST
    else OverPrefixes(t, req, t.childrenOf[parent], parts, |parts|, NO_BEST)
  }

  function OverPrefixes(t: Tables, req: int, children: map<string, seq<Action>>, parts: seq<string>,
                        k: nat, best: Best): Best
    requires k <= |parts|
    decreases |parts|, 2, k
  {
    if k == 0 then best
    else
      var part := Join(parts[..k]);
      var best' := if part in children then OverActions(t, req, children[part], parts[k..], best)
                   else best;
      OverPrefixes(t, req, children, parts, k - 1, best')
  }

  function OverActions(t: Tables, req: int, actions: seq<Action>, parts: seq<string>, best: Best): Best
    decreases |parts|, 5, |actions|
  {
    if actions == [] then best
    else OverActions(t, req, actions[1..], parts, Consider(t, req, actions[0], parts, best))
  }

  function Consider(t: Tables, req: int, a: Action, parts: seq<string>, best: Best): Best
    decreases |parts|, 4
  {
    if a.IsLink() then
      match CaptureSplit(a, parts)
      case None => best
      case Some((captures, local)) => Extend(a, captures, BestMatch(t, req, a.Private(), local), best)
    else if a.Match(req + |parts|) then Finish(a, parts, best)
    else best
  }

  predicate Better(ret: Best, best: Best) {
    || best.isNull
    || |ret.parts| < |best.parts|
    || (|ret.parts| == |best.parts| && |ret.captures| < |best.captures| && ret.nPathParts > best.nPathParts)
  }

  function Extend(a: Action, captures: seq<string>, ret: Best, best: Best): Best {
    if ret.actions != [] && Better(ret, best) then
      Best([a] + ret.actions, captures + ret.captures, ret.parts,
           CountSlashes(a.PathPart()) + 1 + ret.nPathParts, false)
    else best
  }

  function Finish(a: Action, parts: seq<string>, best: Best): Best {
    if best.isNull || |parts| < |best.parts|
       || (parts == [] && a.Value(Attr.Args) != "" && a.numberOfArgs == 0)
    then Best([a], [], parts, CountSlashes(a.PathPart()) + 1, false)
    else best
  }

  /** Prefixes under which nothing is registered change nothing. */
  lemma {:induction false} SkipTo(t: Tables, req: int, children: map<string, seq<Action>>, parts: seq<string>,
                                  m: nat, k: nat, best: Best)
    requires m <= k <= |parts|
    requires forall j :: m < j <= k ==> Join(parts[..j]) !in children
    ensures OverPrefixes(t, req, children, parts, k, best) == OverPrefixes(t, req, children, parts, m, best)
  {
    if m < k {
      SkipTo(t, req, children, parts, m, k - 1, best);
    }
  }

  // ----- What a match is --------------------------------------------------------------------

  /** `a` is registered below `parent` under exactly the first `k` parts. */
  ghost predicate Takes(t: Tables, parent: string, parts: seq<string>, k: nat, a: Action) {
    && 1 <= k <= |parts|
    && parent in t.childrenOf
    && Join(parts[..k]) in t.childrenOf[parent]
    && a in t.childrenOf[parent][Join(parts[..k])]
  }

  /** `chain` leads from `parent` through `parts`, taking `captures` and leaving `rest`. */
  ghost predicate Matches(t: Tables, req: int, parent: string, parts: seq<string>,
                          chain: seq<Action>, captures: seq<string>, rest: seq<string>)
    decreases |chain|, 1
  {
    && chain != []
    && exists k: nat :: Takes(t, parent, parts, k, chain[0])
                   && MatchesAfter(t, req, parts[k..], chain, captures, rest)
  }

  ghost predicate MatchesAfter(t: Tables, req: int, parts: seq<string>,
                               chain: seq<Action>, captures: seq<string>, rest: seq<string>)
    requires chain != []
    decreases |chain|, 0
  {
    var a := chain[0];
    if |chain| == 1 then
      !a.IsLink() && a.Match(req + |parts|) && captures == [] && rest == parts
    else
      && a.IsLink()
      && CaptureSplit(a, parts).Some?
      && var (taken, local) := CaptureSplit(a, parts).value;
      && taken <= captures
      && Matches(t, req, a.Private(), local, chain[1..], captures[|taken|..], rest)
  }

  /** The first step of a match of two or more actions. */
  lemma MatchStep(t: Tables, req: int, parent: string, parts: seq<string>,
                  chain: seq<Action>, captures: seq<string>, rest: seq<string>)
    returns (k: nat, taken: seq<string>, local: seq<string>)
    requires Matches(t, req, parent, parts, chain, captures, rest) && |chain| > 1
    ensures Takes(t, parent, parts, k, chain[0]) && chain[0].IsLink()
    ensures CaptureSplit(chain[0], parts[k..]) == Some((taken, local)) && taken <= captures
    ensures Matches(t, req, chain[0].Private(), local, chain[1..], captures[|taken|..], rest)
  {
    k :| Takes(t, parent, parts, k, chain[0]) && MatchesAfter(t, req, parts[k..], chain, captures, rest);
    var split := CaptureSplit(chain[0], parts[k..]).value;
    taken, local := split.0, split.1;
  }

  lemma MatchEnd(t: Tables, req: int, parent: string, parts: seq<string>,
                 chain: seq<Action>, captures: seq<string>, rest: seq<string>)
    returns (k: nat)
    requires Matches(t, req, parent, parts, chain, captures, rest) && |chain| == 1
    ensures Takes(t, parent, parts, k, chain[0])
    ensures !chain[0].IsLink() && chain[0].Match(req + |parts[k..]|) && captures == [] && rest == parts[k..]
  {
    k :| Takes(t, parent, parts, k, chain[0]) && MatchesAfter(t, req, parts[k..], chain, captures, rest);
  }

  lemma MatchCons(t: Tables, req: int, parent: string, parts: seq<string>, k: nat, a: Action,
                  taken: seq<string>, local: seq<string>, chain: seq<Action>, captures: seq<string>, rest: seq<string>)
    requires Takes(t, parent, parts, k, a) && a.IsLink()
    requires CaptureSplit(a, parts[k..]) == Some((taken, local))
    requires Matches(t, req, a.Private(), local, chain, captures, rest)
    ensures Matches(t, req, parent, parts, [a] + chain, taken + captures, rest)
  {
    assert ([a] + chain)[1..] == chain;
    assert (taken + captures)[|taken|..] == captures;
    assert MatchesAfter(t, req, parts[k..], [a] + chain, taken + captures, rest);
  }

  /** A result the search may return: none, or a chain that matches. */
  ghost predicate Good(t: Tables, req: int, parent: string, parts: seq<string>, b: Best) {
    b.isNull || Matches(t, req, parent, parts, b.actions, b.captures, b.parts)
  }

  lemma {:induction false} BestMatchGood(t: Tables, req: int, parent: string, parts: seq<string>)
    ensures Good(t, req, parent, parts, BestMatch(t, req, parent, parts))
    ensures BestMatch(t, req, parent, parts).isNull ==> BestMatch(t, req, parent, parts) == NO_BEST
    decreases |parts|, 3
  {
    if parent in t.childrenOf {
      OverPrefixesGood(t, req, parent, parts, |parts|, NO_BEST);
    }
  }

  lemma {:induction false} OverPrefixesGood(t: Tables, req: int, parent: string, parts: seq<string>,
                                            k: nat, best: Best)
    requires k <= |parts| && parent in t.childrenOf
    requires Good(t, req, parent, parts, best) && (best.isNull ==> best == NO_BEST)
    ensures var b := OverPrefixes(t, req, t.childrenOf[parent], parts, k, best);
            Good(t, req, parent, parts, b) && (b.isNull ==> b == NO_BEST)
    decreases |parts|, 2, k
  {
    if k > 0 {
      var children := t.childrenOf[parent];
      var part := Join(parts[..k]);
      if part in children {
        OverActionsGood(t, req, parent, parts, k, children[part], best);
        OverPrefixesGood(t, req, parent, parts, k - 1, OverActions(t, req, children[part], parts[k..], best));
      } else {
        OverPrefixesGood(t, req, parent, parts, k - 1, best);
      }
    }
  }

  lemma {:induction false} OverActionsGood(t: Tables, req: int, parent: string, parts: seq<string>, k: nat,
                                           actions: seq<Action>, best: Best)
    requires forall a :: a in actions ==> Takes(t, parent, parts, k, a)
    requires k >= 1 && k <= |parts|
    requires Good(t, req, parent, parts, best) && (best.isNull ==> best == NO_BEST)
    ensures var b := OverActions(t, req, actions, parts[k..], best);
            Good(t, req, parent, parts, b) && (b.isNull ==> b == NO_BEST)
    decreases |parts| - k, 5, |actions|
  {
    if actions == [] {
    } else {
      ConsiderGood(t, req, parent, parts, k, actions[0], best);
      OverActionsGood(t, req, parent, parts, k, actions[1..], Consider(t, req, actions[0], parts[k..], best));
    }
  }

  lemma {:induction false} ConsiderGood(t: Tables, req: int, parent: string, parts: seq<string>, k: nat,
                                        a: Action, best: Best)
    requires Takes(t, parent, parts, k, a)
    requires Good(t, req, parent, parts, best) && (best.isNull ==> best == NO_BEST)
    ensures var b := Consider(t, req, a, parts[k..], best);
            Good(t, req, parent, parts, b) && (b.isNull ==> b == NO_BEST)
    decreases |parts| - k, 4
  {
    var b := Consider(t, req, a, parts[k..], best);
    if b != best && a.IsLink() {
      var (taken, local) := CaptureSplit(a, parts[k..]).value;
      var ret := BestMatch(t, req, a.Private(), local);
      BestMatchGood(t, req, a.Private(), local);
      MatchCons(t, req, parent, parts, k, a, taken, local, ret.actions, ret.captures, ret.parts);
    } else if b != best {
      assert MatchesAfter(t, req, parts[k..], b.actions, b.captures, b.parts);
    }
  }

  /** Every step keeps a result and never makes it leave more parts. */
  ghost predicate NoWorse(b: Best, best: Best) {
    !best.isNull ==> !b.isNull && |b.parts| <= |best.parts|
  }

  lemma {:induction false} OverActionsNoWorse(t: Tables, req: int, actions: seq<Action>, parts: seq<string>,
                                              best: Best)
    ensures NoWorse(OverActions(t, req, actions, parts, best), best)
    decreases |actions|
  {
    if actions == [] {
    } else {
      OverActionsNoWorse(t, req, actions[1..], parts, Consider(t, req, actions[0], parts, best));
    }
  }

  lemma {:induction false} OverPrefixesNoWorse(t: Tables, req: int, children: map<string, seq<Action>>,
                                               parts: seq<string>, k: nat, best: Best)
    requires k <= |parts|
    ensures NoWorse(OverPrefixes(t, req, children, parts, k, best), best)
    decreases k
  {
    if k > 0 {
      var part := Join(parts[..k]);
      if part in children {
        OverActionsNoWorse(t, req, children[part], parts[k..], best);
        OverPrefixesNoWorse(t, req, children, parts, k - 1, OverActions(t, req, children[part], parts[k..], best));
      } else {
        OverPrefixesNoWorse(t, req, children, parts, k - 1, best);
      }
    }
  }

  /** No chain that matches is missed, and none leaves fewer trailing parts than the one found. */
  lemma {:induction false} BestMatchOptimal(t: Tables, req: int, parent: string, parts: seq<string>,
                                            chain: seq<Action>, captures: seq<string>, rest: seq<string>)
    requires Matches(t, req, parent, parts, chain, captures, rest)
    ensures var b := BestMatch(t, req, parent, parts); !b.isNull && |b.parts| <= |rest|
    decreases |chain|, 2
  {
    var k: nat :| Takes(t, parent, parts, k, chain[0]) && MatchesAfter(t, req, parts[k..], chain, captures, rest);
    OverPrefixesOptimal(t, req, parent, parts, k, chain, captures, rest, |parts|, NO_BEST);
  }

  lemma {:induction false} OverPrefixesOptimal(t: Tables, req: int, parent: string, parts: seq<string>, k: nat,
      chain: seq<Action>, captures: seq<string>, rest: seq<string>, j: nat, best: Best)
    requires chain != [] && Takes(t, parent, parts, k, chain[0])
    requires MatchesAfter(t, req, parts[k..], chain, captures, rest)
    requires k <= j <= |parts|
    ensures var b := OverPrefixes(t, req, t.childrenOf[parent], parts, j, best); !b.isNull && |b.parts| <= |rest|
    decreases |chain|, 1, j
  {
    var children := t.childrenOf[parent];
    var part := Join(parts[..j]);
    var best' := if part in children then OverActions(t, req, children[part], parts[j..], best) else best;
    if j == k {
      var i :| 0 <= i < |children[part]| && children[part][i] == chain[0];
      OverActionsOptimal(t, req, children[part], i, parts[k..], chain, captures, rest, best);
      OverPrefixesNoWorse(t, req, children, parts, j - 1, best');
    } else {
      OverPrefixesOptimal(t, req, parent, parts, k, chain, captures, rest, j - 1, best');
    }
  }

  lemma {:induction false} OverActionsOptimal(t: Tables, req: int, actions: seq<Action>, i: nat, parts: seq<string>,
      chain: seq<Action>, captures: seq<string>, rest: seq<string>, best: Best)
    requires i < |actions| && chain != [] && actions[i] == chain[0]
    requires MatchesAfter(t, req, parts, chain, captures, rest)
    ensures var b := OverActions(t, req, actions, parts, best); !b.isNull && |b.parts| <= |rest|
    decreases |chain|, 0, |actions|
  {
    var best' := Consider(t, req, actions[0], parts, best);
    if i > 0 {
      OverActionsOptimal(t, req, actions[1..], i - 1, parts, chain, captures, rest, best');
    } else {
      if |chain| > 1 {
        var (taken, local) := CaptureSplit(chain[0], parts).value;
        BestMatchOptimal(t, req, chain[0].Private(), local, chain[1..], captures[|taken|..], rest);
        BestMatchGood(t, req, chain[0].Private(), local);
      }
      OverActionsNoWorse(t, req, actions[1..], parts, best');
    }
  }

  /** The search finds a chain exactly when one matches; what it finds matches, and no matching
      chain leaves fewer parts. */
  lemma SearchIsExact(t: Tables, req: int, parent: string, parts: seq<string>)
    ensures var b := BestMatch(t, req, parent, parts);
            && (!b.isNull <==> exists chain, captures, rest :: Matches(t, req, parent, parts, chain, captures, rest))
            && (!b.isNull ==> Matches(t, req, parent, parts, b.actions, b.captures, b.parts))
            && (forall chain, captures, rest :: Matches(t, req, parent, parts, chain, captures, rest)
                                                ==> |b.parts| <= |rest|)
  {
    BestMatchGood(t, req, parent, parts);
    var b := BestMatch(t, req, parent, parts);
    assert !b.isNull ==> Matches(t, req, parent, parts, b.actions, b.captures, b.parts);
    forall chain, captures, rest | Matches(t, req, parent, parts, chain, captures, rest)
      ensures !BestMatch(t, req, parent, parts).isNull
      ensures |BestMatch(t, req, parent, parts).parts| <= |rest|
    {
      BestMatchOptimal(t, req, parent, parts, chain, captures, rest);
    }
  }
}
