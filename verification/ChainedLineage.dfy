/** Following `Chained` from an action up to the root, the URI such a line of actions spells, and
    how that URI and the search undo each other. */
module ChainedLineage {
  import opened Basics
  import opened Slashes
  import opened ChainedRouting

  ghost predicate Registered(t: Tables, a: Action) {
    && a.Parent() in t.childrenOf
    && a.PathPart() in t.childrenOf[a.Parent()]
    && a in t.childrenOf[a.Parent()][a.PathPart()]
  }

  ghost predicate NoEmptyParts(t: Tables) {
    forall parent, part :: parent in t.childrenOf && part in t.childrenOf[parent] ==> part != ""
  }

  /** What every registration keeps: an action is filed under its own `Chained` and `PathPart`
      values, no part is empty, and the private names index exactly the filed actions. */
  ghost predicate Coherent(t: Tables) {
    && "/" !in t.actions
    && (forall key :: key in t.actions ==> t.actions[key].Private() == key && Registered(t, t.actions[key]))
    && NoEmptyParts(t)
    && (forall parent, part, i :: parent in t.childrenOf && part in t.childrenOf[parent]
                                  && 0 <= i < |t.childrenOf[parent][part]|
          ==> Filed(t, parent, part, t.childrenOf[parent][part][i]))
  }

  ghost predicate Filed(t: Tables, parent: string, part: string, a: Action) {
    && part != ""
    && a.Parent() == parent
    && a.PathPart() == part
    && a.Has(Attr.Chained)
    && a.Private() in t.actions
    && t.actions[a.Private()] == a
  }

  /** `line` runs from an action whose parent is not registered down to its last action. */
  ghost predicate Lineage(t: Tables, line: seq<Action>) {
    && line != []
    && line[0].Parent() !in t.actions
    && forall i :: 0 < i < |line| ==> line[i].Parent() in t.actions && t.actions[line[i].Parent()] == line[i - 1]
  }

  lemma {:induction false} LineageUnique(t: Tables, a: seq<Action>, b: seq<Action>)
    requires Lineage(t, a) && Lineage(t, b) && a[|a| - 1] == b[|b| - 1]
    ensures a == b
  {
    if |a| == 1 || |b| == 1 {
      assert |a| == 1 && |b| == 1;
    } else {
      LineageUnique(t, a[..|a| - 1], b[..|b| - 1]);
      assert a == a[..|a| - 1] + [a[|a| - 1]];
      assert b == b[..|b| - 1] + [b[|b| - 1]];
    }
  }

  /** No action comes up twice on the way to the root. */
  lemma LineageDistinct(t: Tables, line: seq<Action>)
    requires Lineage(t, line)
    ensures forall i, j :: 0 <= i < j < |line| ==> line[i] != line[j]
  {
    forall i, j | 0 <= i < j < |line|
      ensures line[i] != line[j]
    {
      if line[i] == line[j] {
        LineageUnique(t, line[..i + 1], line[..j + 1]);
        assert false;
      }
    }
  }

  /** Two actions under different parents, each filed under its own. */
  lemma TwoFiled(t: Tables, a: Action, b: Action)
    requires a.Private() != b.Private() && a.Private() != "/" && b.Private() != "/" && a.Parent() != b.Parent()
    requires a.Has(Attr.Chained) && b.Has(Attr.Chained) && a.PathPart() != "" && b.PathPart() != ""
    requires t.actions == map[a.Private() := a, b.Private() := b]
    requires t.childrenOf == map[a.Parent() := map[a.PathPart() := [a]], b.Parent() := map[b.PathPart() := [b]]]
    ensures Coherent(t)
  {
    assert Registered(t, a) && Registered(t, b);
    assert Filed(t, a.Parent(), a.PathPart(), a) && Filed(t, b.Parent(), b.PathPart(), b);
  }

  /** The action n steps up from one, if the way is that long. */
  function Ancestor(t: Tables, a: Action, n: nat): Option<Action> {
    if n == 0 then Some(a)
    else
      match Ancestor(t, a, n - 1)
      case None => None
      case Some(b) => if b.Parent() in t.actions then Some(t.actions[b.Parent()]) else None
  }

  ghost predicate HasLine(t: Tables, a: Action) {
    exists line :: Lineage(t, line) && line[|line| - 1] == a
  }

  /** An action has a line if and only if the way up from it ends. */
  lemma LineIfWalkEnds(t: Tables, a: Action)
    ensures HasLine(t, a) <==> exists n: nat :: Ancestor(t, a, n).None?
  {
    if HasLine(t, a) {
      var line :| Lineage(t, line) && line[|line| - 1] == a;
      UpTheLine(t, line, |line| - 1);
      assert Ancestor(t, a, |line|).None?;
    }
    if exists n: nat :: Ancestor(t, a, n).None? {
      var n: nat :| Ancestor(t, a, n).None?;
      var line := LineOf(t, a, n);
    }
  }

  lemma {:induction false} UpTheLine(t: Tables, line: seq<Action>, n: nat)
    requires Lineage(t, line) && n < |line|
    ensures Ancestor(t, line[|line| - 1], n) == Some(line[|line| - 1 - n])
  {
    if n == 0 {
    } else {
      UpTheLine(t, line, n - 1);
    }
  }

  lemma {:induction false} LineOf(t: Tables, a: Action, n: nat) returns (line: seq<Action>)
    requires Ancestor(t, a, n).None?
    ensures Lineage(t, line) && line[|line| - 1] == a
    decreases n
  {
    if a.Parent() in t.actions {
      OneUp(t, a, n);
      var above := LineOf(t, t.actions[a.Parent()], n - 1);
      line := above + [a];
    } else {
      line := [a];
    }
  }

  /** The way up from the parent is the way up from the action but for its first step. */
  lemma {:induction false} OneUp(t: Tables, a: Action, n: nat)
    requires n > 0 && a.Parent() in t.actions
    ensures Ancestor(t, a, n) == Ancestor(t, t.actions[a.Parent()], n - 1)
  {
    if n == 1 {
      assert Ancestor(t, a, 0) == Some(a);
    } else {
      OneUp(t, a, n - 1);
    }
  }

  /** Two actions chained to each other are filed, and have no line. */
  lemma CycleHasNoLine()
    ensures
      var x := Action("x", "x", map[Attr.Chained := ["/y"], Attr.PathPart := ["x"], Attr.CaptureArgs := ["0"]], -1, 0);
      var y := Action("y", "y", map[Attr.Chained := ["/x"], Attr.PathPart := ["y"], Attr.Args := ["0"]], 0, -1);
      var t := Tables([y], map["/x" := x, "/y" := y], map["/y" := map["x" := [x]], "/x" := map["y" := [y]]]);
      Coherent(t) && !HasLine(t, x) && !HasLine(t, y)
  {
    hide HasLine, Coherent;
    var x := Action("x", "x", map[Attr.Chained := ["/y"], Attr.PathPart := ["x"], Attr.CaptureArgs := ["0"]], -1, 0);
    var y := Action("y", "y", map[Attr.Chained := ["/x"], Attr.PathPart := ["y"], Attr.Args := ["0"]], 0, -1);
    var t := Tables([y], map["/x" := x, "/y" := y], map["/y" := map["x" := [x]], "/x" := map["y" := [y]]]);
    assert x.Private() == "/x" && y.Private() == "/y";
    TwoFiled(t, x, y);
    NoLineInCycle(t, x, y);
  }

  lemma NoLineInCycle(t: Tables, x: Action, y: Action)
    requires x.Parent() in t.actions && t.actions[x.Parent()] == y
    requires y.Parent() in t.actions && t.actions[y.Parent()] == x
    ensures !HasLine(t, x) && !HasLine(t, y)
  {
    hide HasLine, Ancestor;
    forall n: nat
      ensures Ancestor(t, x, n).Some? && Ancestor(t, y, n).Some?
    {
      RoundAndRound(t, x, y, n);
    }
    LineIfWalkEnds(t, x);
    LineIfWalkEnds(t, y);
  }

  lemma {:induction false} RoundAndRound(t: Tables, x: Action, y: Action, n: nat)
    requires x.Parent() in t.actions && t.actions[x.Parent()] == y
    requires y.Parent() in t.actions && t.actions[y.Parent()] == x
    ensures Ancestor(t, x, n) == Some(if n % 2 == 0 then x else y)
    ensures Ancestor(t, y, n) == Some(if n % 2 == 0 then y else x)
  {
    if n == 0 {
    } else {
      RoundAndRound(t, x, y, n - 1);
    }
  }

  /** The captures `uriForAction` takes for one action. */
  function Taken(a: Action): nat {
    if a.IsLink() && a.numberOfCaptures > 0 then a.numberOfCaptures else 0
  }

  function Needed(line: seq<Action>): nat {
    if line == [] then 0 else Taken(line[0]) + Needed(line[1..])
  }

  lemma {:induction false} NeededConcat(a: seq<Action>, b: seq<Action>)
    ensures Needed(a + b) == Needed(a) + Needed(b)
  {
    if a == [] {
      assert a + b == b;
    } else {
      NeededConcat(a[1..], b);
      assert (a + b)[1..] == a[1..] + b;
    }
  }

  /** Each action's part followed by its captures, from the root down. */
  function UriParts(line: seq<Action>, captures: seq<string>): seq<string>
    requires |captures| == Needed(line)
  {
    if line == [] then []
    else
      var n := Taken(line[0]);
      (if line[0].PathPart() == "" then [] else [line[0].PathPart()])
      + captures[..n] + UriParts(line[1..], captures[n..])
  }

  /** The URI of the last action of a line, if the line reaches the root and the captures fit. */
  function Uri(line: seq<Action>, captures: seq<string>): Option<string>
    requires line != []
  {
    if line[0].Parent() != "/" || |captures| != Needed(line) then None
    else Some("/" + Join(UriParts(line, captures)))
  }

  /** As `UriParts`, with every part cut at its slashes. */
  function Segments(line: seq<Action>, captures: seq<string>): seq<string>
    requires |captures| == Needed(line)
  {
    if line == [] then []
    else
      var n := Taken(line[0]);
      Split(line[0].PathPart()) + captures[..n] + Segments(line[1..], captures[n..])
  }

  lemma SegmentsUnfold(line: seq<Action>, captures: seq<string>)
    requires |captures| == Needed(line) && line != []
    ensures Taken(line[0]) <= |captures| && |captures[Taken(line[0])..]| == Needed(line[1..])
    ensures Segments(line, captures)
            == Split(line[0].PathPart())
               + (captures[..Taken(line[0])] + Segments(line[1..], captures[Taken(line[0])..]))
    ensures |line| == 1 && !line[0].IsLink() ==> Segments(line, captures) == Split(line[0].PathPart()) && captures == []
  {
    if |line| == 1 {
      assert line[1..] == [];
    }
  }

  lemma UriPartsUnfold(line: seq<Action>, captures: seq<string>)
    requires |captures| == Needed(line) && line != [] && line[0].PathPart() != ""
    ensures UriParts(line, captures)
            == [line[0].PathPart()] + (captures[..Taken(line[0])] + UriParts(line[1..], captures[Taken(line[0])..]))
  {
  }

  lemma JoinNested(xs: seq<string>, ys: seq<string>)
    requires xs != []
    ensures Join([Join(xs)] + ys) == Join(xs + ys)
  {
    if ys == [] {
      assert xs + ys == xs;
    } else {
      JoinConcat(xs, ys);
      JoinConcat([Join(xs)], ys);
    }
  }

  lemma {:induction false} UriPartsSegments(line: seq<Action>, captures: seq<string>, rest: seq<string>)
    requires |captures| == Needed(line)
    requires forall i :: 0 <= i < |line| ==> line[i].PathPart() != ""
    ensures Join(UriParts(line, captures) + rest) == Join(Segments(line, captures) + rest)
  {
    if line == [] {
    } else {
      hide UriParts, Segments, Needed, Join, Split, Taken;
      SegmentsUnfold(line, captures);
      UriPartsUnfold(line, captures);
      var n, part := Taken(line[0]), line[0].PathPart();
      var u, s := UriParts(line[1..], captures[n..]), Segments(line[1..], captures[n..]);
      UriPartsSegments(line[1..], captures[n..], rest);
      UriPartsEmptiness(line[1..], captures[n..]);
      JoinSplit(part);
      EmptyAlike(u, s, rest);
      SamePrefix(part, captures[..n], u + rest, s + rest);
      JoinRegroup([part], captures[..n], u, rest);
      JoinRegroup(Split(part), captures[..n], s, rest);
    }
  }

  /** A part and its captures in front of texts that join alike. */
  lemma SamePrefix(part: string, taken: seq<string>, u: seq<string>, s: seq<string>)
    requires Join(u) == Join(s) && (u == [] <==> s == []) && Join(Split(part)) == part
    ensures Join([part] + (taken + u)) == Join(Split(part) + (taken + s))
  {
    hide Join, Split;
    SwapBehind([part], taken, u, s);
    PartSplit(part, taken + s);
  }

  lemma EmptyAlike(u: seq<string>, s: seq<string>, rest: seq<string>)
    requires u == [] <==> s == []
    ensures u + rest == [] <==> s + rest == []
  {
  }

  lemma SwapBehind(a: seq<string>, b: seq<string>, u: seq<string>, s: seq<string>)
    requires a != [] && Join(u) == Join(s) && (u == [] <==> s == [])
    ensures Join(a + (b + u)) == Join(a + (b + s))
  {
    hide Join;
    TwoThenOne(a, b, u);
    TwoThenOne(a, b, s);
    JoinSwap(a + b, u, s);
  }

  lemma PartSplit(part: string, more: seq<string>)
    requires Join(Split(part)) == part
    ensures Join([part] + more) == Join(Split(part) + more)
  {
    hide Join, Split;
    JoinNested(Split(part), more);
  }

  lemma JoinRegroup(first: seq<string>, captures: seq<string>, tail: seq<string>, args: seq<string>)
    ensures Join((first + (captures + tail)) + args) == Join(first + (captures + (tail + args)))
  {
    hide Join;
    Regroup(first, captures, tail, args);
  }

  lemma TwoThenOne(a: seq<string>, b: seq<string>, c: seq<string>)
    ensures (a + b) + c == a + (b + c)
  {
  }

  lemma UriPartsEmptiness(line: seq<Action>, captures: seq<string>)
    requires |captures| == Needed(line)
    requires forall i :: 0 <= i < |line| ==> line[i].PathPart() != ""
    ensures UriParts(line, captures) == [] <==> line == []
    ensures Segments(line, captures) == [] <==> line == []
  {
  }

  lemma JoinSwap(xs: seq<string>, u: seq<string>, s: seq<string>)
    requires xs != [] && Join(u) == Join(s) && (u == [] <==> s == [])
    ensures Join(xs + u) == Join(xs + s)
  {
    if u != [] {
      JoinConcat(xs, u);
      JoinConcat(xs, s);
    }
  }

  /** Every action above the last is a link with a number of captures. */
  predicate Linked(line: seq<Action>) {
    forall i :: 0 <= i < |line| - 1 ==> line[i].IsLink() && line[i].numberOfCaptures >= 0
  }

  lemma TakesItsPart(t: Tables, parent: string, parts: seq<string>, k: nat, a: Action)
    requires Coherent(t) && Takes(t, parent, parts, k, a)
    ensures Filed(t, parent, Join(parts[..k]), a) && Filed(t, a.Parent(), a.PathPart(), a) && a.Parent() == parent
    ensures Plain(parts) ==> parts[..k] == Split(a.PathPart())
  {
    var part := Join(parts[..k]);
    var i :| 0 <= i < |t.childrenOf[parent][part]| && t.childrenOf[parent][part][i] == a;
    assert Filed(t, parent, part, a);
    if Plain(parts) {
      SplitJoin(parts[..k]);
    }
  }

  lemma LinkedTail(line: seq<Action>)
    requires line != []
    ensures Linked(line) ==> Linked(line[1..])
    ensures |line| > 1 && Linked(line[1..]) && line[0].IsLink() && line[0].numberOfCaptures >= 0 ==> Linked(line)
  {
    if Linked(line) {
      forall j | 0 <= j < |line[1..]| - 1
        ensures line[1..][j].IsLink() && line[1..][j].numberOfCaptures >= 0
      {
        assert line[1..][j] == line[j + 1];
      }
    }
    if |line| > 1 && Linked(line[1..]) && line[0].IsLink() && line[0].numberOfCaptures >= 0 {
      forall j | 0 <= j < |line| - 1
        ensures line[j].IsLink() && line[j].numberOfCaptures >= 0
      {
        if j > 0 {
          assert line[1..][j - 1] == line[j];
        }
      }
    }
  }

  /** A matching chain is a line below `parent`: links, then an end point. */
  lemma MatchIsChained(t: Tables, req: int, parent: string, parts: seq<string>,
                       chain: seq<Action>, captures: seq<string>, rest: seq<string>)
    requires Coherent(t) && Matches(t, req, parent, parts, chain, captures, rest)
    ensures chain[0].Parent() == parent && !chain[|chain| - 1].IsLink()
    ensures forall i :: 0 <= i < |chain| ==> Filed(t, chain[i].Parent(), chain[i].PathPart(), chain[i])
    ensures forall i :: 0 <= i < |chain| - 1 ==> chain[i].IsLink() && chain[i + 1].Parent() == chain[i].Private()
  {
    MatchIsBelow(t, req, parent, parts, chain, captures, rest);
  }

  /** Every action is filed under its parent, and every one but the last is the link the next hangs on. */
  ghost predicate Below(t: Tables, chain: seq<Action>) {
    && (forall i :: 0 <= i < |chain| ==> Filed(t, chain[i].Parent(), chain[i].PathPart(), chain[i]))
    && (forall i :: 0 <= i < |chain| - 1 ==> chain[i].IsLink() && chain[i + 1].Parent() == chain[i].Private())
  }

  lemma BelowCons(t: Tables, chain: seq<Action>)
    requires |chain| > 1 && Below(t, chain[1..]) && Filed(t, chain[0].Parent(), chain[0].PathPart(), chain[0])
    requires chain[0].IsLink() && chain[1].Parent() == chain[0].Private()
    ensures Below(t, chain)
  {
    hide Filed;
    forall i | 0 < i < |chain|
      ensures chain[i] == chain[1..][i - 1]
    {
    }
    forall i | 0 <= i < |chain| - 1
      ensures chain[i].IsLink() && chain[i + 1].Parent() == chain[i].Private()
    {
      assert i > 0 ==> chain[i] == chain[1..][i - 1];
      assert chain[i + 1] == chain[1..][i];
    }
  }

  lemma {:induction false} MatchIsBelow(t: Tables, req: int, parent: string, parts: seq<string>,
                                        chain: seq<Action>, captures: seq<string>, rest: seq<string>)
    requires Coherent(t) && Matches(t, req, parent, parts, chain, captures, rest)
    ensures chain != [] && chain[0].Parent() == parent && !chain[|chain| - 1].IsLink() && Below(t, chain)
    decreases |chain|
  {
    hide Coherent, Filed, CaptureSplit, Takes, MatchesAfter;
    if |chain| == 1 {
      var k := MatchEnd(t, req, parent, parts, chain, captures, rest);
      TakesItsPart(t, parent, parts, k, chain[0]);
    } else {
      var k, taken, local := MatchStep(t, req, parent, parts, chain, captures, rest);
      TakesItsPart(t, parent, parts, k, chain[0]);
      MatchIsBelow(t, req, chain[0].Private(), local, chain[1..], captures[|taken|..], rest);
      hide Below;
      BelowCons(t, chain);
    }
  }

  /** A chain the search returns from the root is the line of its last action. */
  lemma MatchIsLineage(t: Tables, req: int, parts: seq<string>,
                       chain: seq<Action>, captures: seq<string>, rest: seq<string>)
    requires Coherent(t) && Matches(t, req, "/", parts, chain, captures, rest)
    ensures Lineage(t, chain) && chain[0].Parent() == "/"
  {
    MatchIsChained(t, req, "/", parts, chain, captures, rest);
    forall i | 0 < i < |chain|
      ensures chain[i].Parent() in t.actions && t.actions[chain[i].Parent()] == chain[i - 1]
    {
      assert Filed(t, chain[i - 1].Parent(), chain[i - 1].PathPart(), chain[i - 1]);
      assert chain[i - 1 + 1].Parent() == chain[i - 1].Private();
    }
  }

  lemma LinkedStep(t: Tables, req: int, parent: string, parts: seq<string>,
                   chain: seq<Action>, captures: seq<string>, rest: seq<string>)
    returns (taken: seq<string>, local: seq<string>)
    requires Coherent(t) && Plain(parts) && Linked(chain) && |chain| > 1
    requires Matches(t, req, parent, parts, chain, captures, rest)
    ensures |taken| == Taken(chain[0]) && taken <= captures
    ensures parts == Split(chain[0].PathPart()) + (taken + local) && Plain(local)
    ensures Linked(chain[1..])
    ensures Matches(t, req, chain[0].Private(), local, chain[1..], captures[|taken|..], rest)
  {
    hide Matches, MatchesAfter, Takes, Coherent, Filed;
    var k;
    k, taken, local := MatchStep(t, req, parent, parts, chain, captures, rest);
    TakesItsPart(t, parent, parts, k, chain[0]);
    assert chain[0].IsLink() && chain[0].numberOfCaptures >= 0;
    assert parts[k..] == taken + local;
    CutAt(parts, k, taken, local);
    LinkedTail(chain);
  }

  lemma {:induction false} LinkedReassembles(t: Tables, req: int, parent: string, parts: seq<string>,
                                            chain: seq<Action>, captures: seq<string>, rest: seq<string>)
    requires Coherent(t) && Plain(parts) && Linked(chain)
    requires Matches(t, req, parent, parts, chain, captures, rest)
    ensures |captures| == Needed(chain) && parts == Segments(chain, captures) + rest
    decreases |chain|
  {
    hide Matches, Coherent, Segments, Needed, Split, Taken, Plain, Linked;
    if |chain| <= 1 {
      EndReassembles(t, req, parent, parts, chain, captures, rest);
    } else {
      var taken, local := LinkedStep(t, req, parent, parts, chain, captures, rest);
      LinkedReassembles(t, req, chain[0].Private(), local, chain[1..], captures[|taken|..], rest);
      OwnCaptures(taken, captures);
      NeededOfFirst(chain);
      SegmentsUnfold(chain, captures);
      Regroup(Split(chain[0].PathPart()), taken, Segments(chain[1..], captures[|taken|..]), rest);
    }
  }

  lemma OwnCaptures(taken: seq<string>, captures: seq<string>)
    requires taken <= captures
    ensures captures[..|taken|] == taken && |captures| == |taken| + |captures[|taken|..]|
  {
  }

  lemma NeededOfFirst(line: seq<Action>)
    requires line != []
    ensures Needed(line) == Taken(line[0]) + Needed(line[1..])
  {
  }

  lemma EndReassembles(t: Tables, req: int, parent: string, parts: seq<string>,
                       chain: seq<Action>, captures: seq<string>, rest: seq<string>)
    requires Coherent(t) && Plain(parts) && |chain| <= 1
    requires Matches(t, req, parent, parts, chain, captures, rest)
    ensures |captures| == Needed(chain) && parts == Segments(chain, captures) + rest
  {
    hide Coherent, Segments, Filed;
    assert chain != [];
    var k := MatchEnd(t, req, parent, parts, chain, captures, rest);
    TakesItsPart(t, parent, parts, k, chain[0]);
    assert chain[1..] == [];
    SegmentsUnfold(chain, captures);
    assert parts == parts[..k] + parts[k..];
  }

  lemma CutAt(parts: seq<string>, k: nat, taken: seq<string>, local: seq<string>)
    requires k <= |parts| && parts[k..] == taken + local
    ensures parts == parts[..k] + (taken + local)
    ensures Plain(parts) ==> Plain(local)
  {
    assert forall i :: 0 <= i < |local| ==> local[i] == parts[k..][|taken| + i];
  }

  /** The actions of a lineage below its last one are registered, each chained to the one before. */
  lemma LineageChained(t: Tables, line: seq<Action>)
    requires Coherent(t) && Lineage(t, line)
    requires line[|line| - 1].Private() in t.actions && t.actions[line[|line| - 1].Private()] == line[|line| - 1]
    ensures forall i :: 0 <= i < |line| ==> Registered(t, line[i]) && line[i].PathPart() != ""
    ensures forall i :: 0 < i < |line| ==> line[i].Parent() == line[i - 1].Private()
  {
    forall i | 0 <= i < |line|
      ensures Registered(t, line[i]) && line[i].PathPart() != ""
    {
      if i < |line| - 1 {
        assert t.actions[line[i + 1].Parent()] == line[i + 1 - 1];
      }
      var children := t.childrenOf[line[i].Parent()][line[i].PathPart()];
      var j :| 0 <= j < |children| && children[j] == line[i];
      assert Filed(t, line[i].Parent(), line[i].PathPart(), line[i]);
    }
  }

  lemma {:induction false} NeededBelowSegments(line: seq<Action>, captures: seq<string>)
    requires |captures| == Needed(line)
    ensures |Segments(line, captures)| >= |line| + Needed(line)
  {
    if line == [] {
    } else {
      NeededBelowSegments(line[1..], captures[Taken(line[0])..]);
    }
  }

  /** A line of registered actions matches the parts it spells, plus accepted arguments, exactly
      when everything above its end point is a link with a number of captures. */
  lemma {:induction false} LineMatchesItsSegments(t: Tables, parent: string, line: seq<Action>,
                                                  captures: seq<string>, args: seq<string>)
    requires line != [] && line[0].Parent() == parent
    requires forall i :: 0 <= i < |line| ==> Registered(t, line[i])
    requires forall i :: 0 < i < |line| ==> line[i].Parent() == line[i - 1].Private()
    requires !line[|line| - 1].IsLink() && line[|line| - 1].Match(|args|)
    requires |captures| == Needed(line)
    requires Linked(line)
    ensures Matches(t, 0, parent, Segments(line, captures) + args, line, captures, args)
    decreases |line|
  {
    hide Segments, Needed, Coherent, Takes, Matches, Linked, CaptureSplit;
    var a := line[0];
    var n := Taken(a);
    var parts := Segments(line, captures) + args;
    SegmentsUnfold(line, captures);
    var k := SegmentsStart(t, line, captures, args);
    if |line| == 1 {
      EndMatches(t, parent, parts, k, line, captures, args);
    } else {
      LinkedTail(line);
      TailOf(line);
      LineMatchesItsSegments(t, a.Private(), line[1..], captures[n..], args);
      ConsMatches(t, parent, parts, k, line, captures, Segments(line[1..], captures[n..]) + args, args);
    }
  }

  lemma ConsMatches(t: Tables, parent: string, parts: seq<string>, k: nat, line: seq<Action>,
                    captures: seq<string>, local: seq<string>, args: seq<string>)
    requires |line| > 1 && Linked(line) && Takes(t, parent, parts, k, line[0]) && Taken(line[0]) <= |captures|
    requires parts[k..] == captures[..Taken(line[0])] + local
    requires Matches(t, 0, line[0].Private(), local, line[1..], captures[Taken(line[0])..], args)
    ensures Matches(t, 0, parent, parts, line, captures, args)
  {
    hide Takes, Matches, CaptureSplit, Linked;
    var n := Taken(line[0]);
    FirstIsLink(line);
    SplitOff(line[0], captures[..n], local);
    MatchCons(t, 0, parent, parts, k, line[0], captures[..n], local, line[1..], captures[n..], args);
    assert line == [line[0]] + line[1..] && captures == captures[..n] + captures[n..];
  }

  lemma EndMatches(t: Tables, parent: string, parts: seq<string>, k: nat, line: seq<Action>,
                   captures: seq<string>, args: seq<string>)
    requires |line| == 1 && Takes(t, parent, parts, k, line[0])
    requires !line[0].IsLink() && line[0].Match(|args|) && captures == [] && parts[k..] == args
    ensures Matches(t, 0, parent, parts, line, captures, args)
  {
    assert MatchesAfter(t, 0, parts[k..], line, captures, args);
  }

  lemma FirstIsLink(line: seq<Action>)
    requires |line| > 1 && Linked(line)
    ensures line[0].IsLink() && line[0].numberOfCaptures >= 0
  {
  }

  lemma TailOf(line: seq<Action>)
    requires |line| > 1
    ensures line[1..][0] == line[1] && line[1..][|line| - 2] == line[|line| - 1]
    ensures forall i :: 0 <= i < |line| - 1 ==> line[1..][i] == line[i + 1]
  {
  }

  /** A link takes its captures off the front. */
  lemma SplitOff(a: Action, captures: seq<string>, local: seq<string>)
    requires a.IsLink() && a.numberOfCaptures >= 0 && |captures| == Taken(a)
    ensures CaptureSplit(a, captures + local) == Some((captures, local))
  {
    TakeFront(captures, local);
  }

  lemma TakeFront(a: seq<string>, b: seq<string>)
    ensures (a + b)[..|a|] == a && (a + b)[|a|..] == b
  {
  }

  lemma SegmentsStart(t: Tables, line: seq<Action>, captures: seq<string>, args: seq<string>) returns (k: nat)
    requires line != [] && Registered(t, line[0]) && |captures| == Needed(line)
    ensures var parts := Segments(line, captures) + args;
            && Takes(t, line[0].Parent(), parts, k, line[0])
            && Taken(line[0]) <= |captures|
            && |captures[Taken(line[0])..]| == Needed(line[1..])
            && parts[k..] == captures[..Taken(line[0])] + (Segments(line[1..], captures[Taken(line[0])..]) + args)
            && (|line| == 1 && !line[0].IsLink() ==> parts[k..] == args)
  {
    var parts := Segments(line, captures) + args;
    var first := Split(line[0].PathPart());
    var n := Taken(line[0]);
    k := |first|;
    JoinSplit(line[0].PathPart());
    SegmentsUnfold(line, captures);
    var tail := Segments(line[1..], captures[n..]);
    Regroup(first, captures[..n], tail, args);
    TakeFront(first, captures[..n] + (tail + args));
    assert Takes(t, line[0].Parent(), parts, k, line[0]);
    if |line| == 1 && !line[0].IsLink() {
      TakeFront(first, args);
    }
  }

  lemma Regroup(first: seq<string>, captures: seq<string>, tail: seq<string>, args: seq<string>)
    ensures (first + (captures + tail)) + args == first + (captures + (tail + args))
  {
  }

  /** ... and only then: a link without a number of captures takes parts its URI has no room for. */
  lemma {:induction false} UnlinkedLineMisses(t: Tables, req: int, parent: string, line: seq<Action>,
                                              captures: seq<string>, args: seq<string>)
    requires Coherent(t) && |captures| == Needed(line) && Plain(captures) && Plain(args)
    requires Matches(t, req, parent, Segments(line, captures) + args, line, captures, args)
    ensures Linked(line)
    decreases |line|
  {
    hide Segments, Coherent, Takes, Matches, Linked;
    if |line| <= 1 {
      LinkedShort(line);
    } else {
      var a := line[0];
      var n := Taken(a);
      var parts := Segments(line, captures) + args;
      var k, taken, after := MatchStep(t, req, parent, parts, line, captures, args);
      SegmentsPlain(line, captures);
      TakesItsPart(t, parent, parts, k, a);
      SegmentsUnfold(line, captures);
      var tail := Segments(line[1..], captures[n..]);
      var local := tail + args;
      Regroup(Split(a.PathPart()), captures[..n], tail, args);
      TakeFront(Split(a.PathPart()), captures[..n] + local);
      TakeFront(captures[..n], local);
      NeededBelowSegments(line[1..], captures[n..]);
      assert taken == captures[..n] && after == local;
      UnlinkedLineMisses(t, req, a.Private(), line[1..], captures[n..], args);
      LinkedTail(line);
    }
  }

  lemma LinkedShort(line: seq<Action>)
    requires |line| <= 1
    ensures Linked(line)
  {
  }

  lemma {:induction false} SegmentsPlain(line: seq<Action>, captures: seq<string>)
    requires |captures| == Needed(line) && Plain(captures)
    ensures Plain(Segments(line, captures))
  {
    if line == [] {
    } else {
      SegmentsPlain(line[1..], captures[Taken(line[0])..]);
    }
  }

  /** Captures and leftovers are parts of the path, and the leftovers are its last. */
  lemma {:induction false} MatchPlain(t: Tables, req: int, parent: string, parts: seq<string>,
                                      chain: seq<Action>, captures: seq<string>, rest: seq<string>)
    requires Plain(parts) && Matches(t, req, parent, parts, chain, captures, rest)
    ensures Plain(captures) && Plain(rest)
    ensures |rest| < |parts| && parts[|parts| - |rest|..] == rest
    decreases |chain|
  {
    hide MatchesAfter, Plain, CaptureSplit;
    assert chain != [];
    hide Matches;
    if |chain| == 1 {
      var k := MatchEnd(t, req, parent, parts, chain, captures, rest);
      PlainSuffix(parts, k);
      NothingPlain();
    } else {
      var k, taken, local := MatchStep(t, req, parent, parts, chain, captures, rest);
      PlainSuffix(parts, k);
      SplitPlainly(chain[0], parts[k..], taken, local);
      MatchPlain(t, req, chain[0].Private(), local, chain[1..], captures[|taken|..], rest);
      TakeRest(taken, captures);
      PlainConcat(taken, captures[|taken|..]);
      SuffixOf(parts, parts[k..], local);
      SuffixOf(parts, local, rest);
    }
  }

  lemma NothingPlain()
    ensures Plain([])
  {
  }

  lemma PlainSuffix(parts: seq<string>, k: nat)
    requires Plain(parts) && k <= |parts|
    ensures Plain(parts[k..]) && parts[|parts| - |parts[k..]|..] == parts[k..]
  {
  }

  lemma SplitPlainly(a: Action, parts: seq<string>, taken: seq<string>, local: seq<string>)
    requires Plain(parts) && CaptureSplit(a, parts) == Some((taken, local))
    ensures Plain(taken) && Plain(local) && |local| <= |parts| && parts[|parts| - |local|..] == local
  {
  }

  lemma TakeRest(taken: seq<string>, captures: seq<string>)
    requires taken <= captures
    ensures captures == taken + captures[|taken|..]
  {
  }

  lemma SuffixOf(a: seq<string>, b: seq<string>, c: seq<string>)
    requires |c| <= |b| <= |a| && a[|a| - |b|..] == b && b[|b| - |c|..] == c
    ensures a[|a| - |c|..] == c
  {
  }

  /** Parts, captures and leftovers of a match put back together are the path if and only if every
      action above the end point is a link with a number of captures. */
  lemma MatchReassembles(t: Tables, req: int, parent: string, parts: seq<string>,
                         chain: seq<Action>, captures: seq<string>, rest: seq<string>)
    requires Coherent(t) && Plain(parts) && Matches(t, req, parent, parts, chain, captures, rest)
    ensures (|captures| == Needed(chain) && parts == Segments(chain, captures) + rest) <==> Linked(chain)
  {
    hide Matches, Coherent, Plain, Segments;
    MatchPlain(t, req, parent, parts, chain, captures, rest);
    if Linked(chain) {
      LinkedReassembles(t, req, parent, parts, chain, captures, rest);
    }
    if |captures| == Needed(chain) && parts == Segments(chain, captures) + rest {
      UnlinkedLineMisses(t, req, parent, chain, captures, rest);
    }
  }

  /** For a match, the URI of the last action with the captures is the consumed part of the path if and
      only if every action above it is a link with a number of captures. */
  lemma MatchUri(t: Tables, req: int, parts: seq<string>,
                 chain: seq<Action>, captures: seq<string>, rest: seq<string>)
    requires Coherent(t) && Plain(parts)
    requires Matches(t, req, "/", parts, chain, captures, rest)
    ensures chain != [] && |rest| < |parts| && parts[|parts| - |rest|..] == rest
    ensures Uri(chain, captures) == Some("/" + Join(parts[..|parts| - |rest|])) <==> Linked(chain)
  {
    hide Matches, Coherent, Segments, UriParts, Join;
    MatchPlain(t, req, "/", parts, chain, captures, rest);
    MatchReassembles(t, req, "/", parts, chain, captures, rest);
    MatchIsBelow(t, req, "/", parts, chain, captures, rest);
    if |captures| == Needed(chain) {
      SpellsSegments(t, chain, captures, parts, rest);
    }
  }

  lemma SpellsSegments(t: Tables, chain: seq<Action>, captures: seq<string>, parts: seq<string>, rest: seq<string>)
    requires Below(t, chain) && chain != [] && |captures| == Needed(chain) && Plain(captures) && Plain(parts)
    requires |rest| < |parts| && parts[|parts| - |rest|..] == rest
    ensures "/" + Join(UriParts(chain, captures)) == "/" + Join(parts[..|parts| - |rest|])
            <==> parts == Segments(chain, captures) + rest
  {
    hide Segments, UriParts, Join, Needed;
    var front := parts[..|parts| - |rest|];
    assert parts == front + rest;
    assert forall i :: 0 <= i < |chain| ==> Filed(t, chain[i].Parent(), chain[i].PathPart(), chain[i]);
    UriPartsSegments(chain, captures, []);
    UriPartsEmptiness(chain, captures);
    assert UriParts(chain, captures) + [] == UriParts(chain, captures);
    assert Segments(chain, captures) + [] == Segments(chain, captures);
    SegmentsPlain(chain, captures);
    SplitJoin(Segments(chain, captures));
    SplitJoin(front);
    SameFront(Segments(chain, captures), front, rest);
    SameSlash(Join(UriParts(chain, captures)), Join(front));
  }

  lemma SameFront(a: seq<string>, b: seq<string>, rest: seq<string>)
    ensures a + rest == b + rest <==> a == b
  {
    if a + rest == b + rest {
      assert a == (a + rest)[..|a|] && b == (b + rest)[..|b|];
    }
  }

  lemma SameSlash(a: string, b: string)
    ensures "/" + a == "/" + b <==> a == b
  {
    assert ("/" + a)[1..] == a && ("/" + b)[1..] == b;
  }

  lemma NeedsNone(a: Action, b: Action)
    requires Taken(a) == 0 && Taken(b) == 0
    ensures Needed([b]) == 0 && Needed([a, b]) == 0
  {
    assert [a, b][1..] == [b] && [b][1..] == [];
  }

  /** A path matched through a link that takes any captures, which is not the URI of its action. */
  lemma MatchedWithoutUri()
    ensures
      var top := Action("a", "a", map[Attr.Chained := ["/"], Attr.PathPart := ["a"], Attr.CaptureArgs := [""]], -1, -1);
      var low := Action("b", "b", map[Attr.Chained := ["/a"], Attr.PathPart := ["b"], Attr.Args := ["0"]], 0, -1);
      var t := Tables([low], map["/a" := top, "/b" := low], map["/" := map["a" := [top]], "/a" := map["b" := [low]]]);
      && Coherent(t) && Matches(t, 0, "/", ["a", "b"], [top, low], ["b"], [])
      && !Linked([top, low]) && Uri([top, low], ["b"]) == None
  {
    hide Coherent;
    var top := Action("a", "a", map[Attr.Chained := ["/"], Attr.PathPart := ["a"], Attr.CaptureArgs := [""]], -1, -1);
    var low := Action("b", "b", map[Attr.Chained := ["/a"], Attr.PathPart := ["b"], Attr.Args := ["0"]], 0, -1);
    var t := Tables([low], map["/a" := top, "/b" := low], map["/" := map["a" := [top]], "/a" := map["b" := [low]]]);
    assert top.Private() == "/a" && low.Private() == "/b";
    TwoFiled(t, top, low);
    var parts := ["a", "b"];
    assert parts[..1] == ["a"] && parts[1..] == ["b"] && ["b"][..1] == ["b"] && ["b"][1..] == [];
    assert Takes(t, "/", parts, 1, top) && Takes(t, "/a", ["b"], 1, low);
    assert MatchesAfter(t, 0, [], [low], [], []);
    assert [top, low][1..] == [low];
    assert Matches(t, 0, "/a", ["b"], [low], [], []);
    assert MatchesAfter(t, 0, ["b"], [top, low], ["b"], []);
    NeedsNone(top, low);
    assert !([top, low][0].numberOfCaptures >= 0);
  }

  /** The arguments as they follow a URI. */
  function Tail(args: seq<string>): string {
    if args == [] then "" else "/" + args[0] + Tail(args[1..])
  }

  lemma {:induction false} JoinTail(parts: seq<string>, args: seq<string>)
    requires parts != []
    ensures Join(parts + args) == Join(parts) + Tail(args)
    decreases |args|
  {
    hide Join;
    if args == [] {
      assert parts + args == parts && Join(parts) + "" == Join(parts);
    } else {
      JoinConcat(parts, [args[0]]);
      JoinOne(args[0]);
      JoinTail(parts + [args[0]], args[1..]);
      assert parts + args == (parts + [args[0]]) + args[1..];
      assert (Join(parts) + "/" + args[0]) + Tail(args[1..]) == Join(parts) + ("/" + args[0] + Tail(args[1..]));
    }
  }

  lemma JoinOne(part: string)
    ensures Join([part]) == part
  {
  }

  /** A URI built for a registered end point, with accepted arguments after it, is matched by the
      action's own line, which leaves just those arguments, if and only if every ancestor is a link
      with a number of captures; the search then leaves no more than the arguments. */
  lemma UriIsMatched(t: Tables, line: seq<Action>, captures: seq<string>, args: seq<string>, uri: string)
    requires Coherent(t) && Lineage(t, line)
    requires var a := line[|line| - 1];
             a.Private() in t.actions && t.actions[a.Private()] == a && !a.IsLink() && a.Match(|args|)
    requires Uri(line, captures) == Some(uri) && Plain(captures) && Plain(args)
    ensures var parts := Split((uri + Tail(args))[1..]);
            && (Matches(t, 0, "/", parts, line, captures, args) <==> Linked(line))
            && (Linked(line) ==> var b := BestMatch(t, 0, "/", parts); !b.isNull && |b.parts| <= |args|)
  {
    LineageChained(t, line);
    var parts := Segments(line, captures) + args;
    UriSpellsSegments(line, captures, args, uri);
    if Linked(line) {
      LineMatchesItsSegments(t, "/", line, captures, args);
      BestMatchOptimal(t, 0, "/", parts, line, captures, args);
    }
    if Matches(t, 0, "/", parts, line, captures, args) {
      UnlinkedLineMisses(t, 0, "/", line, captures, args);
    }
  }

  lemma UriSpellsSegments(line: seq<Action>, captures: seq<string>, args: seq<string>, uri: string)
    requires line != [] && forall i :: 0 <= i < |line| ==> line[i].PathPart() != ""
    requires Uri(line, captures) == Some(uri) && Plain(captures) && Plain(args)
    ensures uri != "" && Split((uri + Tail(args))[1..]) == Segments(line, captures) + args
  {
    var parts := Segments(line, captures) + args;
    UriPartsSegments(line, captures, args);
    UriPartsEmptiness(line, captures);
    JoinTail(UriParts(line, captures), args);
    DropSlash(Join(UriParts(line, captures)), Tail(args));
    SegmentsPlain(line, captures);
    PlainConcat(Segments(line, captures), args);
    SplitJoin(parts);
  }

  lemma DropSlash(a: string, b: string)
    ensures (("/" + a) + b)[1..] == a + b
  {
  }

  lemma PlainConcat(a: seq<string>, b: seq<string>)
    requires Plain(a) && Plain(b)
    ensures Plain(a + b)
  {
  }

  /** The URI of an end point chained to an end point. */
  lemma TwoEndPoints(top: Action, low: Action)
    requires !top.IsLink() && !low.IsLink() && top.Parent() == "/" && top.PathPart() != "" && low.PathPart() != ""
    ensures Uri([top, low], []) == Some("/" + (top.PathPart() + "/" + low.PathPart()))
  {
    var line := [top, low];
    assert line[1..] == [low] && [low][1..] == [];
    NeedsNone(top, low);
    UriPartsUnfold([low], []);
    UriPartsUnfold(line, []);
    assert UriParts([low], []) == [low.PathPart()];
    assert UriParts(line, []) == [top.PathPart(), low.PathPart()];
    assert [top.PathPart(), low.PathPart()][1..] == [low.PathPart()];
    assert Join([low.PathPart()]) == low.PathPart();
    assert Join([top.PathPart(), low.PathPart()]) == top.PathPart() + "/" + low.PathPart();
  }

  /** The actions "/x" and "/x/y", both end points. */
  function EndPointX(): Action {
    Action("x", "x", map[Attr.Chained := ["/"], Attr.PathPart := ["x"], Attr.Args := ["0"]], 0, -1)
  }

  function EndPointXY(): Action {
    Action("y", "y", map[Attr.Chained := ["/x"], Attr.PathPart := ["y"], Attr.Args := ["0"]], 0, -1)
  }

  function TablesXY(): Tables {
    Tables([EndPointX(), EndPointXY()], map["/x" := EndPointX(), "/y" := EndPointXY()],
           map["/" := map["x" := [EndPointX()]], "/x" := map["y" := [EndPointXY()]]])
  }

  lemma CoherentXY()
    ensures Coherent(TablesXY()) && Lineage(TablesXY(), [EndPointX(), EndPointXY()])
  {
    hide Coherent;
    var t, top, low := TablesXY(), EndPointX(), EndPointXY();
    assert top.Private() == "/x" && low.Private() == "/y";
    TwoFiled(t, top, low);
  }

  lemma NotFoundXY()
    ensures BestMatch(TablesXY(), 0, "/", ["x", "y"]).isNull
  {
    var t, parts := TablesXY(), ["x", "y"];
    assert Join(["y"]) == "y";
    assert Join(["x", "y"]) == "x/y";
    assert parts[..2] == parts && parts[..1] == ["x"] && parts[1..] == ["y"];
    var children := t.childrenOf["/"];
    assert "x/y" !in children;
    assert Consider(t, 0, EndPointX(), ["y"], NO_BEST) == NO_BEST;
    assert OverActions(t, 0, [EndPointX()], ["y"], NO_BEST) == NO_BEST;
    assert OverPrefixes(t, 0, children, parts, 1, NO_BEST) == NO_BEST;
    assert OverPrefixes(t, 0, children, parts, 2, NO_BEST) == NO_BEST;
  }

  /** An action chained to an end point gets a URI that nothing matches. */
  lemma UriBelowEndPointIsLost()
    ensures Coherent(TablesXY()) && Lineage(TablesXY(), [EndPointX(), EndPointXY()])
    ensures Uri([EndPointX(), EndPointXY()], []) == Some("/x/y")
    ensures Split("x/y") == ["x", "y"] && BestMatch(TablesXY(), 0, "/", ["x", "y"]).isNull
  {
    hide Coherent, Lineage, BestMatch, TablesXY, Uri, Split;
    CoherentXY();
    NotFoundXY();
    TwoEndPoints(EndPointX(), EndPointXY());
    assert "/" + ("x" + "/" + "y") == "/x/y" && "x" + "/" + "y" == "x/y";
    SplitPlain("y");
    SplitConcat("x", "y");
  }
}
