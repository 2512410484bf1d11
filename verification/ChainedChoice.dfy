/** Which of several matching chains the search chooses: who is tried first, and who displaces whom. */
module ChainedChoice {
  import opened Basics
  import opened Slashes
  import opened ChainedRouting
  import opened ChainedLineage

  /** A matching chain: what its first action captured, what those below it did, and what is left. */
  datatype Found = Found(chain: seq<Action>, own: seq<string>, below: seq<string>, rest: seq<string>)

  /** A place in the order of trying: the number of parts of the prefix, and the action's place under it. */
  datatype Place = Place(k: nat, i: nat)

  /** Longer prefixes come first, and under one prefix the actions in their stored order. */
  predicate Earlier(p: Place, q: Place) {
    p.k > q.k || (p.k == q.k && p.i < q.i)
  }

  const END := Place(0, 0)

  predicate IsPlace(t: Tables, parent: string, parts: seq<string>, p: Place) {
    && parent in t.childrenOf
    && 1 <= p.k <= |parts|
    && Join(parts[..p.k]) in t.childrenOf[parent]
    && p.i < |t.childrenOf[parent][Join(parts[..p.k])]|
  }

  function ActionAt(t: Tables, parent: string, parts: seq<string>, p: Place): Action
    requires IsPlace(t, parent, parts, p)
  {
    t.childrenOf[parent][Join(parts[..p.k])][p.i]
  }

  /** What a place offers: an end point that takes what follows, or a link with what is chosen below it. */
  function Offer(t: Tables, req: int, parent: string, parts: seq<string>, p: Place): Option<Found> {
    if !IsPlace(t, parent, parts, p) then None
    else OfferOf(t, req, ActionAt(t, parent, parts, p), parts[p.k..])
  }

  function OfferOf(t: Tables, req: int, a: Action, rest: seq<string>): Option<Found> {
    if !a.IsLink() then
      if a.numberOfArgs == -1 || a.numberOfArgs == req + |rest| then Some(Found([a], [], [], rest)) else None
    else if |rest| < a.numberOfCaptures || a.numberOfCaptures < -1 then None
    else
      var below := BestMatch(t, req, a.Private(), Onward(a, rest));
      if below.isNull then None else Some(Found([a] + below.actions, Own(a, rest), below.captures, below.parts))
  }

  /** A link takes its number of parts; without a number it takes them all, and leaves them all. */
  function Own(a: Action, rest: seq<string>): seq<string> {
    if 0 <= a.numberOfCaptures <= |rest| then rest[..a.numberOfCaptures] else rest
  }

  function Onward(a: Action, rest: seq<string>): seq<string> {
    if 0 <= a.numberOfCaptures <= |rest| then rest[a.numberOfCaptures..] else rest
  }

  /** How many parts of a path the actions' own parts make up. */
  function PathParts(chain: seq<Action>): nat {
    if chain == [] then 0 else |Split(chain[0].PathPart())| + PathParts(chain[1..])
  }

  /** Who comes later wins if it leaves fewer parts. When it leaves as many, a longer chain wins if the
      actions below its first captured less than the whole other chain and have more path parts; and an
      end point wins that takes just no arguments when nothing is left. */
  predicate Displaces(f: Found, g: Found) {
    || |f.rest| < |g.rest|
    || (|f.chain| > 1 && |f.rest| == |g.rest|
        && |f.below| < |g.own| + |g.below| && PathParts(f.chain[1..]) > PathParts(g.chain))
    || (|f.chain| == 1 && f.rest == [] && f.chain[0].numberOfArgs == 0 && f.chain[0].Value(Attr.Args) != "")
  }

  predicate IsChoice(b: Best, f: Found) {
    && !b.isNull && b.actions == f.chain && b.captures == f.own + f.below && b.parts == f.rest
    && b.nPathParts == PathParts(f.chain)
  }

  /** The places that held the choice, one after the other, while those before `upto` were tried: the
      first to offer anything, then each time the next that displaces its predecessor. */
  ghost predicate Succession(t: Tables, req: int, parent: string, parts: seq<string>, h: seq<Place>, upto: Place,
                             b: Best)
  {
    if b.isNull then h == [] && NoneOffered(t, req, parent, parts, upto)
    else
      && h != []
      && (forall j | 0 <= j < |h| :: Offer(t, req, parent, parts, h[j]).Some?)
      && NoneOffered(t, req, parent, parts, h[0])
      && (forall j | 0 <= j < |h| - 1 :: Follows(t, req, parent, parts, h[j], h[j + 1]))
      && Holds(t, req, parent, parts, h[|h| - 1], upto)
      && IsChoice(b, Offer(t, req, parent, parts, h[|h| - 1]).value)
  }

  /** No place before this one offers anything. */
  ghost predicate NoneOffered(t: Tables, req: int, parent: string, parts: seq<string>, upto: Place) {
    forall p | Earlier(p, upto) :: Offer(t, req, parent, parts, p).None?
  }

  /** From here to there nobody displaces this place's offer. */
  ghost predicate Holds(t: Tables, req: int, parent: string, parts: seq<string>, p: Place, upto: Place)
    requires Offer(t, req, parent, parts, p).Some?
  {
    && Earlier(p, upto)
    && forall q | Earlier(p, q) && Earlier(q, upto) ::
         var o := Offer(t, req, parent, parts, q);
         o.Some? ==> !Displaces(o.value, Offer(t, req, parent, parts, p).value)
  }

  /** The next place to displace this one. */
  ghost predicate Follows(t: Tables, req: int, parent: string, parts: seq<string>, p: Place, q: Place)
    requires Offer(t, req, parent, parts, p).Some? && Offer(t, req, parent, parts, q).Some?
  {
    && Holds(t, req, parent, parts, p, q)
    && Displaces(Offer(t, req, parent, parts, q).value, Offer(t, req, parent, parts, p).value)
  }

  // ----- The search chooses by succession ------------------------------------------------------

  lemma {:induction false} SlashesAndParts(s: string)
    ensures CountSlashes(s) + 1 == |Split(s)|
  {
    if s == "" {
    } else {
      SlashesAndParts(s[1..]);
    }
  }

  /** What the search returns counts its path parts right. */
  lemma {:induction false} PathPartsCounted(t: Tables, req: int, parent: string, parts: seq<string>)
    ensures var b := BestMatch(t, req, parent, parts);
            !b.isNull ==> b.actions != [] && b.nPathParts == PathParts(b.actions)
    decreases |parts|, 4
  {
    var h := ChoiceSucceeds(t, req, parent, parts);
    BestMatchGood(t, req, parent, parts);
  }

  /** One more place tried. */
  lemma OneMoreTried(t: Tables, req: int, parent: string, parts: seq<string>, h: seq<Place>, p: Place, b: Best,
                     b': Best)
    returns (h': seq<Place>)
    requires Succession(t, req, parent, parts, h, p, b) && (b.isNull ==> b == NO_BEST)
    requires var o := Offer(t, req, parent, parts, p);
             if o.None? then b' == b
             else if b.isNull then IsChoice(b', o.value)
             else if Displaces(o.value, Offer(t, req, parent, parts, h[|h| - 1]).value) then IsChoice(b', o.value)
             else b' == b
    ensures Succession(t, req, parent, parts, h', Place(p.k, p.i + 1), b')
  {
    hide Offer, Displaces;
    var o := Offer(t, req, parent, parts, p);
    if o.None? {
      h' := h;
    } else if b.isNull {
      h' := [p];
    } else if Displaces(o.value, Offer(t, req, parent, parts, h[|h| - 1]).value) {
      h' := h + [p];
      assert Follows(t, req, parent, parts, h[|h| - 1], p);
      assert forall j | 0 <= j < |h'| - 1 :: h'[j] == h[j];
    } else {
      h' := h;
    }
  }

  /** After the last place of a prefix the next shorter prefix begins. */
  lemma NextPrefix(t: Tables, req: int, parent: string, parts: seq<string>, h: seq<Place>, p: Place, b: Best)
    requires p.k > 0 && forall i | i >= p.i :: !IsPlace(t, parent, parts, Place(p.k, i))
    requires Succession(t, req, parent, parts, h, p, b)
    ensures Succession(t, req, parent, parts, h, Place(p.k - 1, 0), b)
  {
    hide IsPlace, OfferOf, Displaces, IsChoice;
    forall q | Earlier(q, Place(p.k - 1, 0)) && !Earlier(q, p)
      ensures Offer(t, req, parent, parts, q).None?
    {
      assert q == Place(p.k, q.i);
    }
    hide Offer;
  }

  lemma {:induction false} PrefixesTried(t: Tables, req: int, parent: string, parts: seq<string>, k: nat,
                                         h: seq<Place>, b: Best)
    returns (h': seq<Place>)
    requires parent in t.childrenOf && k <= |parts| && (b.isNull ==> b == NO_BEST)
    requires Succession(t, req, parent, parts, h, Place(k, 0), b)
    ensures Succession(t, req, parent, parts, h', END, OverPrefixes(t, req, t.childrenOf[parent], parts, k, b))
    decreases |parts|, 2, k
  {
    hide Succession;
    var children := t.childrenOf[parent];
    if k == 0 {
      h' := h;
    } else {
      var part := Join(parts[..k]);
      if part in children {
        var h1 := ActionsTried(t, req, parent, parts, k, 0, h, b);
        assert children[part][0..] == children[part];
        var b1 := OverActions(t, req, children[part], parts[k..], b);
        NextPrefix(t, req, parent, parts, h1, Place(k, |children[part]|), b1);
        StillNone(t, req, children[part], parts[k..], b);
        h' := PrefixesTried(t, req, parent, parts, k - 1, h1, b1);
      } else {
        NextPrefix(t, req, parent, parts, h, Place(k, 0), b);
        h' := PrefixesTried(t, req, parent, parts, k - 1, h, b);
      }
    }
  }

  lemma {:induction false} StillNone(t: Tables, req: int, actions: seq<Action>, parts: seq<string>, b: Best)
    requires b.isNull ==> b == NO_BEST
    ensures var b' := OverActions(t, req, actions, parts, b); b'.isNull ==> b' == NO_BEST
    decreases |actions|
  {
    if actions == [] {
    } else {
      StillNone(t, req, actions[1..], parts, Consider(t, req, actions[0], parts, b));
    }
  }

  lemma {:induction false} ActionsTried(t: Tables, req: int, parent: string, parts: seq<string>, k: nat, i: nat,
                                        h: seq<Place>, b: Best)
    returns (h': seq<Place>)
    requires parent in t.childrenOf && 1 <= k <= |parts| && Join(parts[..k]) in t.childrenOf[parent]
    requires i <= |t.childrenOf[parent][Join(parts[..k])]| && (b.isNull ==> b == NO_BEST)
    requires Succession(t, req, parent, parts, h, Place(k, i), b)
    ensures var actions := t.childrenOf[parent][Join(parts[..k])];
            Succession(t, req, parent, parts, h', Place(k, |actions|), OverActions(t, req, actions[i..], parts[k..], b))
    decreases |parts| - k, 6, |t.childrenOf[parent][Join(parts[..k])]| - i
  {
    hide Succession, Consider;
    var actions := t.childrenOf[parent][Join(parts[..k])];
    if i == |actions| {
      h' := h;
    } else {
      var b1 := Consider(t, req, actions[i], parts[k..], b);
      assert actions[i..][1..] == actions[i + 1..];
      var h1 := ActionTried(t, req, parent, parts, Place(k, i), h, b);
      StillNone(t, req, [actions[i]], parts[k..], b);
      h' := ActionsTried(t, req, parent, parts, k, i + 1, h1, b1);
    }
  }

  lemma {:induction false} ActionTried(t: Tables, req: int, parent: string, parts: seq<string>, p: Place,
                                       h: seq<Place>, b: Best)
    returns (h': seq<Place>)
    requires IsPlace(t, parent, parts, p) && (b.isNull ==> b == NO_BEST)
    requires Succession(t, req, parent, parts, h, p, b)
    ensures Succession(t, req, parent, parts, h', Place(p.k, p.i + 1),
                       Consider(t, req, ActionAt(t, parent, parts, p), parts[p.k..], b))
    decreases |parts| - p.k, 5
  {
    var a, rest := ActionAt(t, parent, parts, p), parts[p.k..];
    if a.IsLink() && CaptureSplit(a, rest).Some? {
      PathPartsCounted(t, req, a.Private(), CaptureSplit(a, rest).value.1);
      BestMatchGood(t, req, a.Private(), CaptureSplit(a, rest).value.1);
    }
    var g := if b.isNull then None else Offer(t, req, parent, parts, h[|h| - 1]);
    Considered(t, req, a, rest, b, g);
    h' := OneMoreTried(t, req, parent, parts, h, p, b, Consider(t, req, a, rest, b));
  }

  /** What considering an action does to the choice. */
  lemma Considered(t: Tables, req: int, a: Action, rest: seq<string>, b: Best, g: Option<Found>)
    requires b.isNull <==> g.None?
    requires g.Some? ==> IsChoice(b, g.value)
    requires a.IsLink() && CaptureSplit(a, rest).Some? ==>
               var below := BestMatch(t, req, a.Private(), CaptureSplit(a, rest).value.1);
               if below.isNull then below == NO_BEST
               else below.actions != [] && below.nPathParts == PathParts(below.actions)
    ensures var o, b' := OfferOf(t, req, a, rest), Consider(t, req, a, rest, b);
            if o.None? then b' == b
            else if g.None? || Displaces(o.value, g.value) then IsChoice(b', o.value)
            else b' == b
  {
    hide BestMatch;
    SlashesAndParts(a.PathPart());
    var o := OfferOf(t, req, a, rest);
    if o.Some? {
      assert o.value.chain[0] == a;
      assert [a][1..] == [];
      if a.IsLink() {
        var below := BestMatch(t, req, a.Private(), CaptureSplit(a, rest).value.1);
        assert o.value.chain[1..] == below.actions;
        assert PathParts(o.value.chain) == CountSlashes(a.PathPart()) + 1 + below.nPathParts;
      } else {
        assert PathParts(o.value.chain) == CountSlashes(a.PathPart()) + 1;
        assert o.value.own + o.value.below == [];
      }
    }
  }

  /** The choice is the last of a succession of places, over all that are tried. */
  lemma {:induction false} ChoiceSucceeds(t: Tables, req: int, parent: string, parts: seq<string>)
    returns (h: seq<Place>)
    ensures Succession(t, req, parent, parts, h, END, BestMatch(t, req, parent, parts))
    decreases |parts|, 3
  {
    hide OfferOf;
    if parent in t.childrenOf {
      h := PrefixesTried(t, req, parent, parts, |parts|, [], NO_BEST);
    } else {
      h := [];
    }
  }

  // ----- Who wins ------------------------------------------------------------------------------

  /** A matching chain that begins under the first k parts. */
  ghost predicate Begins(t: Tables, req: int, parent: string, parts: seq<string>, k: nat,
                         chain: seq<Action>, captures: seq<string>, rest: seq<string>)
  {
    chain != [] && Takes(t, parent, parts, k, chain[0]) && MatchesAfter(t, req, parts[k..], chain, captures, rest)
  }

  lemma BeginsIsMatch(t: Tables, req: int, parent: string, parts: seq<string>, k: nat,
                      chain: seq<Action>, captures: seq<string>, rest: seq<string>)
    requires Begins(t, req, parent, parts, k, chain, captures, rest)
    ensures Matches(t, req, parent, parts, chain, captures, rest)
    ensures var b := BestMatch(t, req, parent, parts); !b.isNull && |b.parts| <= |rest|
  {
    hide BestMatch, MatchesAfter, Takes;
    BestMatchOptimal(t, req, parent, parts, chain, captures, rest);
  }

  /** What a place offers is a matching chain that begins there. */
  lemma OfferBegins(t: Tables, req: int, parent: string, parts: seq<string>, p: Place)
    requires Offer(t, req, parent, parts, p).Some?
    ensures var f := Offer(t, req, parent, parts, p).value;
            && f.chain != [] && Begins(t, req, parent, parts, p.k, f.chain, f.own + f.below, f.rest)
            && (|f.chain| == 1 ==> f.own == [] && f.below == [] && f.rest == parts[p.k..])
  {
    hide BestMatch;
    var f, a, rest := Offer(t, req, parent, parts, p).value, ActionAt(t, parent, parts, p), parts[p.k..];
    if a.IsLink() {
      var (own, local) := CaptureSplit(a, rest).value;
      var below := BestMatch(t, req, a.Private(), local);
      BestMatchGood(t, req, a.Private(), local);
      assert f.chain[1..] == below.actions && (f.own + f.below)[|own|..] == f.below;
    } else {
      assert f.own + f.below == [];
    }
  }

  /** Wherever a chain begins there is an offer that leaves no more. */
  lemma BeginsIsOffered(t: Tables, req: int, parent: string, parts: seq<string>, k: nat,
                        chain: seq<Action>, captures: seq<string>, rest: seq<string>) returns (p: Place)
    requires Begins(t, req, parent, parts, k, chain, captures, rest)
    ensures p.k == k && Offer(t, req, parent, parts, p).Some?
    ensures |Offer(t, req, parent, parts, p).value.rest| <= |rest|
  {
    hide BestMatch;
    var actions := t.childrenOf[parent][Join(parts[..k])];
    var i: nat :| i < |actions| && actions[i] == chain[0];
    p := Place(k, i);
    if |chain| > 1 {
      var (own, local) := CaptureSplit(chain[0], parts[k..]).value;
      BestMatchOptimal(t, req, chain[0].Private(), local, chain[1..], captures[|own|..], rest);
    }
  }

  /** Who holds the choice when a place that offers something has been tried. */
  lemma {:induction false} InForce(t: Tables, req: int, parent: string, parts: seq<string>, h: seq<Place>, b: Best,
                                   p: Place, n: nat)
    returns (j: nat)
    requires Succession(t, req, parent, parts, h, END, b) && !b.isNull && Offer(t, req, parent, parts, p).Some?
    requires n < |h| && forall i | n < i < |h| :: Earlier(p, h[i])
    ensures j < |h| && forall i | j < i < |h| :: Earlier(p, h[i])
    ensures h[j] == p || (Earlier(h[j], p) && !Displaces(Offer(t, req, parent, parts, p).value,
                                                         Offer(t, req, parent, parts, h[j]).value))
    decreases n
  {
    hide Offer, Displaces, IsChoice;
    if h[n] == p {
      j := n;
    } else if Earlier(h[n], p) {
      j := n;
      OfferedEarly(t, req, parent, parts, p);
      if n < |h| - 1 {
        assert Follows(t, req, parent, parts, h[n], h[n + 1]);
      }
    } else {
      assert n > 0;
      j := InForce(t, req, parent, parts, h, b, p, n - 1);
    }
  }

  lemma OfferedEarly(t: Tables, req: int, parent: string, parts: seq<string>, p: Place)
    requires Offer(t, req, parent, parts, p).Some?
    ensures Earlier(p, END) && 1 <= p.k <= |parts|
  {
  }

  /** If the longest prefix at which a chain that leaves the fewest parts begins has only such chains
      without captures, the choice begins there. */
  lemma LongestPrefixWins(t: Tables, req: int, parent: string, parts: seq<string>, k: nat,
                          chain: seq<Action>, captures: seq<string>, rest: seq<string>)
    requires Begins(t, req, parent, parts, k, chain, captures, rest)
    requires forall c, d, r :: Matches(t, req, parent, parts, c, d, r) ==> |rest| <= |r|
    requires forall n, c, d, r :: n > k && Begins(t, req, parent, parts, n, c, d, r) ==> |r| > |rest|
    requires forall c, d, r :: Begins(t, req, parent, parts, k, c, d, r) && |r| == |rest| ==> d == []
    ensures var b := BestMatch(t, req, parent, parts);
            !b.isNull && Begins(t, req, parent, parts, k, b.actions, b.captures, b.parts) && b.captures == []
  {
    hide BestMatch, Begins, Succession, Offer, Displaces, Matches, Follows;
    BeginsIsMatch(t, req, parent, parts, k, chain, captures, rest);
    var b := BestMatch(t, req, parent, parts);
    var h := ChoiceSucceeds(t, req, parent, parts);
    var p := BeginsIsOffered(t, req, parent, parts, k, chain, captures, rest);
    SomeHeld(t, req, parent, parts, h, b);
    var j := InForce(t, req, parent, parts, h, b, p, |h| - 1);
    AtLeastAsFew(t, req, parent, parts, p, |rest|);
    HeldOffers(t, req, parent, parts, h, b, j);
    AtLeastAsFew(t, req, parent, parts, h[j], |rest|);
    Unless(t, req, parent, parts, p, h[j]);
    HeldAt(t, req, parent, parts, h, b, k, |rest|, j);
    HeldOffers(t, req, parent, parts, h, b, |h| - 1);
  }

  lemma SomeHeld(t: Tables, req: int, parent: string, parts: seq<string>, h: seq<Place>, b: Best)
    requires Succession(t, req, parent, parts, h, END, b) && !b.isNull
    ensures h != []
  {
  }

  lemma Unless(t: Tables, req: int, parent: string, parts: seq<string>, p: Place, q: Place)
    requires Offer(t, req, parent, parts, p).Some? && Offer(t, req, parent, parts, q).Some?
    ensures !Displaces(Offer(t, req, parent, parts, p).value, Offer(t, req, parent, parts, q).value)
            ==> |Offer(t, req, parent, parts, q).value.rest| <= |Offer(t, req, parent, parts, p).value.rest|
  {
    hide Offer;
  }

  lemma AtLeastAsFew(t: Tables, req: int, parent: string, parts: seq<string>, p: Place, fewest: nat)
    requires Offer(t, req, parent, parts, p).Some?
    requires forall c, d, r :: Matches(t, req, parent, parts, c, d, r) ==> fewest <= |r|
    ensures |Offer(t, req, parent, parts, p).value.rest| >= fewest
  {
    hide Offer, Begins, Matches;
    var f := Offer(t, req, parent, parts, p).value;
    OfferBegins(t, req, parent, parts, p);
    BeginsIsMatch(t, req, parent, parts, p.k, f.chain, f.own + f.below, f.rest);
  }

  lemma HeldOffers(t: Tables, req: int, parent: string, parts: seq<string>, h: seq<Place>, b: Best, j: nat)
    requires Succession(t, req, parent, parts, h, END, b) && !b.isNull && j < |h|
    ensures Offer(t, req, parent, parts, h[j]).Some?
    ensures var f := Offer(t, req, parent, parts, h[j]).value;
            && f.chain != [] && Begins(t, req, parent, parts, h[j].k, f.chain, f.own + f.below, f.rest)
            && (|f.chain| == 1 ==> f.own == [] && f.below == [] && f.rest == parts[h[j].k..]) && 1 <= h[j].k <= |parts|
            && (j == |h| - 1 ==> b.actions == f.chain && b.captures == f.own + f.below && b.parts == f.rest)
    ensures j < |h| - 1 ==>
              && Offer(t, req, parent, parts, h[j + 1]).Some? && Follows(t, req, parent, parts, h[j], h[j + 1])
  {
    hide Offer, Displaces, Begins, Follows;
    OfferBegins(t, req, parent, parts, h[j]);
    OfferedEarly(t, req, parent, parts, h[j]);
  }

  /** Once a chain without captures that leaves the fewest holds the choice at this prefix, it stays there. */
  lemma {:induction false} HeldAt(t: Tables, req: int, parent: string, parts: seq<string>, h: seq<Place>, b: Best,
                                  k: nat, fewest: nat, j: nat)
    requires Succession(t, req, parent, parts, h, END, b) && !b.isNull && j < |h|
    requires forall c, d, r :: Matches(t, req, parent, parts, c, d, r) ==> fewest <= |r|
    requires forall n, c, d, r :: n > k && Begins(t, req, parent, parts, n, c, d, r) ==> |r| > fewest
    requires forall c, d, r :: Begins(t, req, parent, parts, k, c, d, r) && |r| == fewest ==> d == []
    requires Offer(t, req, parent, parts, h[j]).Some? && |Offer(t, req, parent, parts, h[j]).value.rest| == fewest
    requires h[j].k >= k
    ensures h[|h| - 1].k == k && Offer(t, req, parent, parts, h[|h| - 1]).Some?
    ensures |Offer(t, req, parent, parts, h[|h| - 1]).value.rest| == fewest
    decreases |h| - j
  {
    hide Succession, Begins, Offer, Matches;
    HeldOffers(t, req, parent, parts, h, b, j);
    if j < |h| - 1 {
      HeldOffers(t, req, parent, parts, h, b, j + 1);
      AtLeastAsFew(t, req, parent, parts, h[j + 1], fewest);
      HeldAt(t, req, parent, parts, h, b, k, fewest, j + 1);
    }
  }

  /** Under the whole path the last end point that says it takes no arguments wins. */
  lemma NoArgumentsWin(t: Tables, parent: string, parts: seq<string>, i: nat)
    requires IsPlace(t, parent, parts, Place(|parts|, i))
    requires TakesNone(ActionAt(t, parent, parts, Place(|parts|, i)))
    requires forall n :: n > i && IsPlace(t, parent, parts, Place(|parts|, n))
                         ==> !TakesNone(ActionAt(t, parent, parts, Place(|parts|, n)))
    ensures var b := BestMatch(t, 0, parent, parts);
            && !b.isNull && b.actions == [ActionAt(t, parent, parts, Place(|parts|, i))]
            && b.captures == [] && b.parts == []
  {
    hide BestMatch, Succession, Offer, Displaces, Begins, IsPlace, TakesNone;
    var p := Place(|parts|, i);
    var b := BestMatch(t, 0, parent, parts);
    var h := ChoiceSucceeds(t, 0, parent, parts);
    NoneTaken(t, parent, parts, p);
    OfferBegins(t, 0, parent, parts, p);
    var f := Offer(t, 0, parent, parts, p).value;
    BeginsIsMatch(t, 0, parent, parts, p.k, f.chain, f.own + f.below, f.rest);
    SomeHeld(t, 0, parent, parts, h, b);
    var j := InForce(t, 0, parent, parts, h, b, p, |h| - 1);
    HeldOffers(t, 0, parent, parts, h, b, j);
    if j < |h| - 1 {
      HeldOffers(t, 0, parent, parts, h, b, j + 1);
      NobodyFollows(t, parent, parts, p, h[j], h[j + 1]);
      assert false;
    }
  }

  lemma NoneTaken(t: Tables, parent: string, parts: seq<string>, p: Place)
    requires p.k == |parts| && IsPlace(t, parent, parts, p) && TakesNone(ActionAt(t, parent, parts, p))
    ensures Offer(t, 0, parent, parts, p) == Some(Found([ActionAt(t, parent, parts, p)], [], [], []))
    ensures forall g: Found :: Displaces(Offer(t, 0, parent, parts, p).value, g)
  {
    hide BestMatch;
    assert parts[p.k..] == [];
  }

  /** After the last end point that takes no arguments nobody displaces it. */
  lemma NobodyFollows(t: Tables, parent: string, parts: seq<string>, p: Place, held: Place, q: Place)
    requires p.k == |parts| && IsPlace(t, parent, parts, p) && TakesNone(ActionAt(t, parent, parts, p))
    requires forall n :: n > p.i && IsPlace(t, parent, parts, Place(|parts|, n))
                         ==> !TakesNone(ActionAt(t, parent, parts, Place(|parts|, n)))
    requires held == p && Offer(t, 0, parent, parts, q).Some? && Offer(t, 0, parent, parts, held).Some?
    requires Earlier(p, q) && q.k <= |parts|
    ensures !Displaces(Offer(t, 0, parent, parts, q).value, Offer(t, 0, parent, parts, held).value)
  {
    hide Offer, BestMatch, TakesNone, IsPlace;
    NoneTaken(t, parent, parts, p);
    OfferIs(t, 0, parent, parts, q);
    OfferBegins(t, 0, parent, parts, q);
    var f := Offer(t, 0, parent, parts, q).value;
    if |f.chain| == 1 && f.rest == [] {
      assert q == Place(|parts|, q.i);
      NotTaken(f.chain[0]);
    }
  }

  lemma NotTaken(a: Action)
    requires !a.IsLink() && !TakesNone(a)
    ensures !(a.numberOfArgs == 0 && a.Value(Attr.Args) != "")
  {
  }

  predicate TakesNone(a: Action) {
    !a.IsLink() && a.numberOfArgs == 0 && a.Value(Attr.Args) != ""
  }

  lemma OfferIs(t: Tables, req: int, parent: string, parts: seq<string>, p: Place)
    requires Offer(t, req, parent, parts, p).Some?
    ensures var f := Offer(t, req, parent, parts, p).value;
            IsPlace(t, parent, parts, p) && f.chain != [] && f.chain[0] == ActionAt(t, parent, parts, p)
            && (|f.chain| == 1 ==> !f.chain[0].IsLink())
  {
    hide BestMatch;
    var a := ActionAt(t, parent, parts, p);
    if a.IsLink() {
      BestMatchGood(t, req, a.Private(), CaptureSplit(a, parts[p.k..]).value.1);
    }
  }

  // ----- When every link has a number of captures ----------------------------------------------

  ghost predicate Numbered(t: Tables) {
    forall a | Registered(t, a) :: a.IsLink() ==> a.numberOfCaptures >= 0
  }

  function Size(f: Found): nat {
    PathParts(f.chain) + |f.own| + |f.below| + |f.rest|
  }

  lemma {:induction false} SegmentsAddUp(line: seq<Action>, captures: seq<string>)
    requires |captures| == Needed(line)
    ensures |Segments(line, captures)| == PathParts(line) + |captures|
  {
    if line == [] {
    } else {
      SegmentsUnfold(line, captures);
      SegmentsAddUp(line[1..], captures[Taken(line[0])..]);
    }
  }

  lemma NumberedIsLinked(t: Tables, req: int, parent: string, parts: seq<string>,
                         chain: seq<Action>, captures: seq<string>, rest: seq<string>)
    requires Coherent(t) && Numbered(t) && Matches(t, req, parent, parts, chain, captures, rest)
    ensures Linked(chain)
  {
    MatchIsChained(t, req, parent, parts, chain, captures, rest);
    hide Matches;
    forall i | 0 <= i < |chain| - 1
      ensures chain[i].IsLink() && chain[i].numberOfCaptures >= 0
    {
      assert Filed(t, chain[i].Parent(), chain[i].PathPart(), chain[i]);
      assert Registered(t, chain[i]);
    }
  }

  /** Path parts, captures and leftover parts of an offer add up to the path. */
  lemma OfferAddsUp(t: Tables, req: int, parent: string, parts: seq<string>, p: Place)
    requires Coherent(t) && Numbered(t) && Plain(parts) && Offer(t, req, parent, parts, p).Some?
    ensures Size(Offer(t, req, parent, parts, p).value) == |parts|
  {
    hide Offer, Coherent, Numbered, BestMatch, Matches, Takes, MatchesAfter, Segments;
    var f := Offer(t, req, parent, parts, p).value;
    OfferBegins(t, req, parent, parts, p);
    BeginsIsMatch(t, req, parent, parts, p.k, f.chain, f.own + f.below, f.rest);
    NumberedIsLinked(t, req, parent, parts, f.chain, f.own + f.below, f.rest);
    MatchReassembles(t, req, parent, parts, f.chain, f.own + f.below, f.rest);
    SegmentsAddUp(f.chain, f.own + f.below);
  }

  /** Among those that leave the fewest parts, the choice never passes to fewer path parts. */
  lemma {:induction false} NeverLess(t: Tables, req: int, parent: string, parts: seq<string>, h: seq<Place>, b: Best,
                                     fewest: nat, j: nat)
    requires Coherent(t) && Numbered(t) && Plain(parts)
    requires Succession(t, req, parent, parts, h, END, b) && !b.isNull && j < |h|
    requires forall c, d, r :: Matches(t, req, parent, parts, c, d, r) ==> fewest <= |r|
    requires Offer(t, req, parent, parts, h[j]).Some? && |Offer(t, req, parent, parts, h[j]).value.rest| == fewest
    ensures PathParts(b.actions) >= PathParts(Offer(t, req, parent, parts, h[j]).value.chain)
    ensures |b.parts| == fewest && PathParts(b.actions) + |b.captures| + |b.parts| == |parts|
    decreases |h| - j
  {
    hide Succession, Begins, Offer, Matches, Coherent, Numbered, Plain;
    HeldOffers(t, req, parent, parts, h, b, j);
    OfferAddsUp(t, req, parent, parts, h[j]);
    if j < |h| - 1 {
      HeldOffers(t, req, parent, parts, h, b, j + 1);
      AtLeastAsFew(t, req, parent, parts, h[j + 1], fewest);
      OfferAddsUp(t, req, parent, parts, h[j + 1]);
      Rises(Offer(t, req, parent, parts, h[j + 1]).value, Offer(t, req, parent, parts, h[j]).value, |parts|, fewest);
      NeverLess(t, req, parent, parts, h, b, fewest, j + 1);
    }
  }

  lemma Rises(f: Found, g: Found, n: nat, fewest: nat)
    requires Displaces(f, g) && Size(f) == n && Size(g) == n && f.chain != []
    requires |g.rest| == fewest <= |f.rest| && (|f.chain| == 1 ==> f.own == [] && f.below == [])
    ensures |f.rest| == fewest && PathParts(f.chain) >= PathParts(g.chain)
  {
  }

  /** No offer that leaves as few parts, before or after, has below its first action both fewer captures and
      more path parts than the choice has altogether; and the choice has at least as many path parts, and at
      most as many captures, as the first offer that leaves so few. */
  lemma ChoiceStands(t: Tables, req: int, parent: string, parts: seq<string>, p: Place)
    requires Coherent(t) && Numbered(t) && Plain(parts) && Offer(t, req, parent, parts, p).Some?
    ensures var b, f := BestMatch(t, req, parent, parts), Offer(t, req, parent, parts, p).value;
            && !b.isNull && |b.parts| <= |f.rest| && f.chain != []
            && (|f.rest| == |b.parts| && |f.below| < |b.captures| ==> PathParts(f.chain[1..]) <= PathParts(b.actions))
            && (|f.rest| == |b.parts|
                && (forall q :: Earlier(q, p) && Offer(t, req, parent, parts, q).Some?
                                ==> |Offer(t, req, parent, parts, q).value.rest| > |f.rest|)
                ==> PathParts(b.actions) >= PathParts(f.chain) && |b.captures| <= |f.own| + |f.below|)
  {
    hide BestMatch, Begins, Succession, Offer, Displaces, Matches, Coherent, Numbered, Plain, PathParts;
    var b, f := BestMatch(t, req, parent, parts), Offer(t, req, parent, parts, p).value;
    OfferBegins(t, req, parent, parts, p);
    BeginsIsMatch(t, req, parent, parts, p.k, f.chain, f.own + f.below, f.rest);
    if |f.rest| == |b.parts| {
      SearchIsExact(t, req, parent, parts);
      var h := ChoiceSucceeds(t, req, parent, parts);
      SomeHeld(t, req, parent, parts, h, b);
      var j := InForce(t, req, parent, parts, h, b, p, |h| - 1);
      HeldOffers(t, req, parent, parts, h, b, j);
      AtLeastAsFew(t, req, parent, parts, h[j], |b.parts|);
      Unless(t, req, parent, parts, p, h[j]);
      NeverLess(t, req, parent, parts, h, b, |b.parts|, j);
      OfferAddsUp(t, req, parent, parts, p);
      OfferAddsUp(t, req, parent, parts, h[j]);
      var g := Offer(t, req, parent, parts, h[j]).value;
      NotBoth(f, g, |parts|, |b.parts|, |b.captures|, PathParts(b.actions));
    }
  }

  lemma NotBoth(f: Found, g: Found, n: nat, fewest: nat, captures: nat, pathParts: nat)
    requires Size(f) == n && Size(g) == n && f.chain != [] && |f.rest| == fewest == |g.rest|
    requires pathParts + captures + fewest == n && pathParts >= PathParts(g.chain)
    requires f == g || !Displaces(f, g)
    ensures |f.below| < captures ==> PathParts(f.chain[1..]) <= pathParts
    ensures f == g ==> captures <= |f.own| + |f.below|
  {
    if |f.chain| == 1 {
      assert f.chain[1..] == [];
    }
  }

  /** There is only one succession: whoever chooses by it chooses the same. */
  lemma {:induction false} OneSuccession(t: Tables, req: int, parent: string, parts: seq<string>,
                                         h: seq<Place>, h': seq<Place>, b: Best, b': Best, n: nat)
    requires Succession(t, req, parent, parts, h, END, b) && Succession(t, req, parent, parts, h', END, b')
    requires !b.isNull && !b'.isNull && n <= |h| && n <= |h'|
    ensures h[..n] == h'[..n]
  {
    hide Displaces, IsChoice, Offer;
    if n == 0 {
    } else {
      OneSuccession(t, req, parent, parts, h, h', b, b', n - 1);
      if n == 1 {
        assert !Earlier(h[0], h'[0]) && !Earlier(h'[0], h[0]);
      } else {
        assert h[..n - 1][n - 2] == h[n - 2] == h'[n - 2];
        assert Follows(t, req, parent, parts, h[n - 2], h[n - 1]);
        assert Follows(t, req, parent, parts, h[n - 2], h'[n - 1]);
        assert !Earlier(h[n - 1], h'[n - 1]) && !Earlier(h'[n - 1], h[n - 1]);
      }
      assert h[..n] == h[..n - 1] + [h[n - 1]] && h'[..n] == h'[..n - 1] + [h'[n - 1]];
    }
  }

  lemma SameChoice(t: Tables, req: int, parent: string, parts: seq<string>, h: seq<Place>, b: Best)
    requires Succession(t, req, parent, parts, h, END, b) && (b.isNull ==> b == NO_BEST)
    ensures b == BestMatch(t, req, parent, parts)
  {
    hide Displaces, Offer, BestMatch;
    var b' := BestMatch(t, req, parent, parts);
    BestMatchGood(t, req, parent, parts);
    var h' := ChoiceSucceeds(t, req, parent, parts);
    OfferedEnd(t, req, parent, parts, h, b);
    OfferedEnd(t, req, parent, parts, h', b');
    if !b.isNull && !b'.isNull {
      var n := if |h| <= |h'| then |h| else |h'|;
      OneSuccession(t, req, parent, parts, h, h', b, b', n);
      assert h[..n][n - 1] == h'[..n][n - 1];
      NoLonger(t, req, parent, parts, h, h', b, b', n);
      NoLonger(t, req, parent, parts, h', h, b', b, n);
    }
  }

  lemma NoLonger(t: Tables, req: int, parent: string, parts: seq<string>, h: seq<Place>, h': seq<Place>,
                 b: Best, b': Best, n: nat)
    requires Succession(t, req, parent, parts, h, END, b) && Succession(t, req, parent, parts, h', END, b')
    requires !b.isNull && !b'.isNull && 0 < n <= |h| && n <= |h'| && (n == |h| || n == |h'|) && h[n - 1] == h'[n - 1]
    ensures n == |h| ==> n == |h'|
  {
    hide Displaces, IsChoice, Offer;
    if n < |h'| {
      var p, q := h'[n - 1], h'[n];
      assert Follows(t, req, parent, parts, p, q);
      OfferedEarly(t, req, parent, parts, q);
    }
  }

  lemma OfferedEnd(t: Tables, req: int, parent: string, parts: seq<string>, h: seq<Place>, b: Best)
    requires Succession(t, req, parent, parts, h, END, b)
    ensures forall p | p in h :: Earlier(p, END)
    ensures !b.isNull ==> !NoneOffered(t, req, parent, parts, END)
  {
    hide Displaces, IsChoice;
    forall p | p in h
      ensures Earlier(p, END)
    {
      OfferedEarly(t, req, parent, parts, p);
    }
    if !b.isNull {
      OfferedEarly(t, req, parent, parts, h[0]);
    }
  }

  // ----- Two tables ----------------------------------------------------------------------------

  function LinkTo(name: string, parent: string, part: string, captures: nat): Action {
    Action(name, name, map[Attr.Chained := [parent], Attr.PathPart := [part], Attr.CaptureArgs := ["n"]], -1, captures)
  }

  function EndOf(name: string, parent: string, part: string): Action {
    Action(name, name, map[Attr.Chained := [parent], Attr.PathPart := [part], Attr.Args := ["0"]], 0, -1)
  }

  /** An end point is found below a link. */
  lemma FoundBelow(t: Tables, parent: string, a: Action)
    requires parent in t.childrenOf && t.childrenOf[parent] == map[a.PathPart() := [a]] && PlainPart(a.PathPart())
    requires !a.IsLink() && a.numberOfArgs == 0
    ensures BestMatch(t, 0, parent, [a.PathPart()]) == Best([a], [], [], 1, false)
  {
    var parts := [a.PathPart()];
    assert parts[..1] == parts && parts[1..] == [] && [a][1..] == [];
    NoSlashes(a.PathPart());
    assert Consider(t, 0, a, [], NO_BEST) == Best([a], [], [], 1, false);
    assert OverActions(t, 0, [a], [], NO_BEST) == Best([a], [], [], 1, false);
    var b := Best([a], [], [], 1, false);
    assert OverPrefixes(t, 0, t.childrenOf[parent], parts, 0, b) == b;
  }

  lemma NoSlashes(part: string)
    requires PlainPart(part)
    ensures CountSlashes(part) == 0
  {
    CountPlain(part);
  }

  /** The links "item/new" and "item" with a capture, each with an end point "edit" below it. */
  function Special(): Action {
    LinkTo("special", "/", "item/new", 0)
  }

  function Items(): Tables {
    Tables([], map[], map["/" := map["item" := [LinkTo("item", "/", "item", 1)], "item/new" := [Special()]],
                          "/item" := map["edit" := [EndOf("e1", "/item", "edit")]],
                          "/special" := map["edit" := [EndOf("e2", "/special", "edit")]]])
  }

  lemma ItemsHas()
    ensures "/" in Items().childrenOf && "/item" in Items().childrenOf && "/special" in Items().childrenOf
    ensures Items().childrenOf["/item"] == map["edit" := [EndOf("e1", "/item", "edit")]]
    ensures Items().childrenOf["/special"] == map["edit" := [EndOf("e2", "/special", "edit")]]
  {
  }

  lemma OneSlash()
    ensures CountSlashes("item/new") == 1
  {
    SplitPlain("new");
    SplitConcat("item", "new");
    assert "item" + "/" + "new" == "item/new";
    SlashesAndParts("item/new");
  }

  /** A link that captures nothing, with an end point chosen below it, is the first choice. */
  lemma LinkConsidered(t: Tables, link: Action, parts: seq<string>, below: Best)
    requires link.IsLink() && link.numberOfCaptures == 0 && !below.isNull && below.actions != []
    requires BestMatch(t, 0, link.Private(), parts) == below
    ensures Consider(t, 0, link, parts, NO_BEST)
            == Best([link] + below.actions, below.captures, below.parts,
                    CountSlashes(link.PathPart()) + 1 + below.nPathParts, false)
  {
    hide BestMatch;
    assert parts[..0] == [] && parts[0..] == parts && [] + below.captures == below.captures;
    assert CaptureSplit(link, parts) == Some(([], parts));
  }

  lemma SpecialConsidered()
    ensures Consider(Items(), 0, Special(), ["edit"], NO_BEST)
            == Best([Special(), EndOf("e2", "/special", "edit")], [], [], 3, false)
  {
    hide BestMatch, Items, Consider;
    ItemsHas();
    FoundBelow(Items(), "/special", EndOf("e2", "/special", "edit"));
    assert Special().Private() == "/special" by {
      assert "/" + "special" == "/special";
    }
    LinkConsidered(Items(), Special(), ["edit"], Best([EndOf("e2", "/special", "edit")], [], [], 1, false));
    OneSlash();
    assert [Special()] + [EndOf("e2", "/special", "edit")] == [Special(), EndOf("e2", "/special", "edit")];
  }

  lemma ItemConsidered(b: Best)
    requires !b.isNull && b.parts == [] && b.captures == []
    ensures Consider(Items(), 0, LinkTo("item", "/", "item", 1), ["new", "edit"], b) == b
  {
    hide BestMatch, Items;
    ItemsHas();
    FoundBelow(Items(), "/item", EndOf("e1", "/item", "edit"));
    var a := LinkTo("item", "/", "item", 1);
    assert ["new", "edit"][..1] == ["new"] && ["new", "edit"][1..] == ["edit"];
    assert CaptureSplit(a, ["new", "edit"]) == Some((["new"], ["edit"]));
    assert a.Private() == "/item";
  }

  /** The link with the longer part, which captures nothing, is chosen. */
  lemma SpecialChosen()
    ensures BestMatch(Items(), 0, "/", ["item", "new", "edit"])
            == Best([Special(), EndOf("e2", "/special", "edit")], [], [], 3, false)
  {
    hide Consider;
    var t, parts := Items(), ["item", "new", "edit"];
    var children := t.childrenOf["/"];
    var b := Best([Special(), EndOf("e2", "/special", "edit")], [], [], 3, false);
    SpecialConsidered();
    ItemConsidered(b);
    assert parts[..1] == ["item"] && parts[1..] == ["new", "edit"];
    assert parts[..2] == ["item", "new"] && parts[2..] == ["edit"] && parts[..3] == parts;
    JoinThree("item", "new", "edit");
    assert "item" + "/" + "new" == "item/new" && "item" + "/" + ("new" + "/" + "edit") == "item/new/edit";
    assert OverActions(t, 0, [LinkTo("item", "/", "item", 1)], ["new", "edit"], b) == b;
    assert OverActions(t, 0, [Special()], ["edit"], NO_BEST) == b;
    assert OverPrefixes(t, 0, children, parts, 1, b) == b;
    assert OverPrefixes(t, 0, children, parts, 2, NO_BEST) == b;
    assert "item/new/edit" !in children;
    assert OverPrefixes(t, 0, children, parts, 3, NO_BEST) == b;
  }

  lemma JoinThree(a: string, b: string, c: string)
    ensures Join([a]) == a && Join([a, b]) == a + "/" + b && Join([a, b, c]) == a + "/" + (b + "/" + c)
  {
    assert [a, b, c][1..] == [b, c] && [b, c][1..] == [c] && [a, b][1..] == [b];
    assert Join([c]) == c && Join([b]) == b && Join([b, c]) == b + "/" + c;
  }

  /** With one action below a parent, only its prefix matters. */
  lemma OnlyChild(t: Tables, parent: string, parts: seq<string>, k: nat, a: Action)
    requires 1 <= k <= |parts| && parent in t.childrenOf && t.childrenOf[parent] == map[Join(parts[..k]) := [a]]
    ensures BestMatch(t, 0, parent, parts) == Consider(t, 0, a, parts[k..], NO_BEST)
  {
    hide Consider, Join;
    var children := t.childrenOf[parent];
    forall n | 1 <= n <= |parts| && n != k
      ensures Join(parts[..n]) !in children
    {
      JoinPrefixLonger(parts, if n < k then n else k, if n < k then k else n);
    }
    var b := Consider(t, 0, a, parts[k..], NO_BEST);
    assert [a][1..] == [];
    SkipTo(t, 0, children, parts, k, |parts|, NO_BEST);
    assert OverActions(t, 0, [a], parts[k..], NO_BEST) == b;
    assert OverPrefixes(t, 0, children, parts, k, NO_BEST) == OverPrefixes(t, 0, children, parts, k - 1, b);
    SkipTo(t, 0, children, parts, 0, k - 1, b);
  }

  /** The links "a/b" with two captures, and "a", below which "b/c" has one; "e" ends both. */
  function Wide(): Action {
    LinkTo("wide", "/", "a/b", 2)
  }

  function Narrow(): Action {
    LinkTo("narrow", "/", "a", 0)
  }

  function Deep(): Action {
    LinkTo("deep", "/narrow", "b/c", 1)
  }

  function Rivals(): Tables {
    Tables([], map[], map["/" := map["a/b" := [Wide()], "a" := [Narrow()]],
                          "/wide" := map["e" := [EndOf("e1", "/wide", "e")]],
                          "/narrow" := map["b/c" := [Deep()]],
                          "/deep" := map["e" := [EndOf("e2", "/deep", "e")]]])
  }

  lemma RivalsHave()
    ensures var c := Rivals().childrenOf;
            && "/" in c && "/wide" in c && "/narrow" in c && "/deep" in c
            && c["/"] == map["a/b" := [Wide()], "a" := [Narrow()]]
            && c["/wide"] == map["e" := [EndOf("e1", "/wide", "e")]]
            && c["/narrow"] == map["b/c" := [Deep()]]
            && c["/deep"] == map["e" := [EndOf("e2", "/deep", "e")]]
  {
  }

  /** A link with its captures, and the end point "e" below it. */
  lemma LinkAndEnd(t: Tables, link: Action, end: Action, own: seq<string>)
    requires link.IsLink() && link.numberOfCaptures == |own|
    requires link.Private() in t.childrenOf && t.childrenOf[link.Private()] == map["e" := [end]]
    requires !end.IsLink() && end.numberOfArgs == 0 && end.PathPart() == "e"
    ensures Consider(t, 0, link, own + ["e"], NO_BEST)
            == Best([link, end], own, [], CountSlashes(link.PathPart()) + 2, false)
  {
    hide BestMatch, CountSlashes;
    FoundBelow(t, link.Private(), end);
    var parts := own + ["e"];
    assert parts[..|own|] == own && parts[|own|..] == ["e"] && own + [] == own;
    assert CaptureSplit(link, parts) == Some((own, ["e"]));
    assert [link] + [end] == [link, end];
  }

  lemma DeepChosen()
    ensures BestMatch(Rivals(), 0, "/narrow", ["b", "c", "d", "e"])
            == Best([Deep(), EndOf("e2", "/deep", "e")], ["d"], [], 3, false)
  {
    hide BestMatch, Consider, Rivals;
    RivalsHave();
    var parts := ["b", "c", "d", "e"];
    assert parts[..2] == ["b", "c"] && parts[2..] == ["d"] + ["e"];
    JoinThree("b", "c", "d");
    assert "b" + "/" + "c" == "b/c" && "/" + "deep" == "/deep";
    assert CountSlashes("b/c") == 1 by {
      OneSlashIn("b", "c");
    }
    LinkAndEnd(Rivals(), Deep(), EndOf("e2", "/deep", "e"), ["d"]);
    OnlyChild(Rivals(), "/narrow", parts, 2, Deep());
  }

  lemma OneSlashIn(a: string, b: string)
    requires PlainPart(a) && PlainPart(b)
    ensures CountSlashes(a + "/" + b) == 1
  {
    SplitPlain(b);
    SplitConcat(a, b);
    SlashesAndParts(a + "/" + b);
  }

  lemma WideConsidered()
    ensures Consider(Rivals(), 0, Wide(), ["c", "d", "e"], NO_BEST)
            == Best([Wide(), EndOf("e1", "/wide", "e")], ["c", "d"], [], 3, false)
  {
    hide BestMatch, Consider, Rivals;
    RivalsHave();
    assert ["c", "d"] + ["e"] == ["c", "d", "e"] && "/" + "wide" == "/wide";
    OneSlashIn("a", "b");
    assert "a" + "/" + "b" == "a/b";
    LinkAndEnd(Rivals(), Wide(), EndOf("e1", "/wide", "e"), ["c", "d"]);
  }

  lemma NarrowConsidered(b: Best)
    requires !b.isNull && b.parts == [] && b.nPathParts == 3
    ensures Consider(Rivals(), 0, Narrow(), ["b", "c", "d", "e"], b) == b
  {
    hide BestMatch, Rivals;
    DeepChosen();
    var parts := ["b", "c", "d", "e"];
    assert parts[..0] == [] && parts[0..] == parts && "/" + "narrow" == "/narrow";
    assert CaptureSplit(Narrow(), parts) == Some(([], parts));
  }

  /** A chain with more path parts and fewer captures, which leaves nothing either, is not chosen: its
      first link's own part is not counted against the other chain. */
  lemma MoreDefinedLoses()
    ensures var t, parts := Rivals(), ["a", "b", "c", "d", "e"];
            var wide, deep := [Wide(), EndOf("e1", "/wide", "e")], [Narrow(), Deep(), EndOf("e2", "/deep", "e")];
            && BestMatch(t, 0, "/", parts) == Best(wide, ["c", "d"], [], 3, false)
            && Offer(t, 0, "/", parts, Place(1, 0)) == Some(Found(deep, [], ["d"], []))
            && PathParts(deep) == 4
  {
    hide BestMatch, Consider, Rivals;
    RivalsHave();
    WideConsidered();
    DeepChosen();
    RivalsChosen();
    assert ["a", "b", "c", "d", "e"][..1] == ["a"] && ["a", "b", "c", "d", "e"][1..] == ["b", "c", "d", "e"];
    assert Join(["a"]) == "a" && "/" + "narrow" == "/narrow";
    assert ["b", "c", "d", "e"][..0] == [] && ["b", "c", "d", "e"][0..] == ["b", "c", "d", "e"];
    DeepParts();
    assert [Narrow()] + [Deep(), EndOf("e2", "/deep", "e")] == [Narrow(), Deep(), EndOf("e2", "/deep", "e")];
  }

  lemma DeepParts()
    ensures PathParts([Narrow(), Deep(), EndOf("e2", "/deep", "e")]) == 4
  {
    hide Split;
    var end := EndOf("e2", "/deep", "e");
    SplitPlain("a");
    SplitPlain("e");
    OneSlashIn("b", "c");
    assert "b" + "/" + "c" == "b/c";
    SlashesAndParts("b/c");
    assert [end][1..] == [] && PathParts([end]) == 1;
    assert [Deep(), end][1..] == [end] && PathParts([Deep(), end]) == 3;
    assert [Narrow(), Deep(), end][1..] == [Deep(), end];
  }

  lemma RivalsChosen()
    ensures BestMatch(Rivals(), 0, "/", ["a", "b", "c", "d", "e"])
            == Best([Wide(), EndOf("e1", "/wide", "e")], ["c", "d"], [], 3, false)
  {
    hide Consider, Rivals;
    RivalsHave();
    WideConsidered();
    var t, parts := Rivals(), ["a", "b", "c", "d", "e"];
    var children := t.childrenOf["/"];
    var b := Best([Wide(), EndOf("e1", "/wide", "e")], ["c", "d"], [], 3, false);
    NarrowConsidered(b);
    JoinThree("a", "b", "c");
    assert "a" + "/" + "b" == "a/b" && parts[..1] == ["a"] && parts[..2] == ["a", "b"];
    assert parts[1..] == ["b", "c", "d", "e"] && parts[2..] == ["c", "d", "e"];
    forall n | 2 < n <= 5
      ensures Join(parts[..n]) !in children
    {
      JoinPrefixLonger(parts, 2, n);
    }
    SkipTo(t, 0, children, parts, 2, 5, NO_BEST);
    assert OverActions(t, 0, [Narrow()], parts[1..], b) == b;
    assert OverActions(t, 0, [Wide()], parts[2..], NO_BEST) == b;
    assert OverPrefixes(t, 0, children, parts, 1, b) == b;
    assert OverPrefixes(t, 0, children, parts, 2, NO_BEST) == b;
  }
}
