/** The chained dispatcher as the program runs it: tables filled by registration, a search that
    loops over hash keys, and walks that follow `Chained` upwards. */
module ChainedDispatcher {
  import opened Basics
  import opened Slashes
  import opened ChainedRouting
  import opened ChainedLineage
  import opened ChainedChoice
  import opened Arguments

  class DispatchTypeChained {
    var endPoints: seq<Action>
    var actions: map<string, Action>
    var childrenOf: map<string, map<string, seq<Action>>>

    ghost function State(): Tables
      reads this
    {
      Tables(endPoints, actions, childrenOf)
    }

    ghost predicate Valid()
      reads this
    {
      Coherent(State())
    }

    /** What a search needs of the tables, and every registration keeps. */
    ghost predicate Searchable()
      reads this
    {
      NoEmptyParts(State())
    }

    constructor ()
      ensures Valid() && Searchable() && State() == Tables([], map[], map[])
    {
      endPoints, actions, childrenOf := [], map[], map[];
    }

    /** Registration fails without a trace on a bad `Chained` or `PathPart`; a bad pair of `Args`
        and `CaptureArgs` is reported after the action has been filed. The registered action
        carries its effective `PathPart`, newest siblings come first. Another action that was filed under
        the same private name is then no longer found by it, and the tables no longer agree. */
    method RegisterAction(a: Action) returns (ok: bool, registered: Action)
      requires Searchable()
      requires a.name != "" && a.reverse != ""
      modifies this
      ensures Searchable()
      ensures old(Valid()) ==>
                (Valid() <==> State() == old(State()) || a.Private() !in old(actions)
                              || old(actions)[a.Private()] == registered)
      ensures var chained, parts := a.Values(Attr.Chained), a.Values(Attr.PathPart);
              var part := if |parts| == 1 && parts[0] != "" then parts[0] else a.name;
              if |chained| != 1 || chained[0] == "/" + a.name || |parts| > 1 || part[0] == '/' then
                !ok && State() == old(State()) && registered == a
              else
                && registered == a.(attributes := a.attributes[Attr.PathPart := [part]])
                && actions == old(actions)[a.Private() := registered]
                && Adds(old(childrenOf), childrenOf, registered, chained[0], part)
                && (ok <==> |a.Values(Attr.Args)| <= 1 && |a.Values(Attr.CaptureArgs)| <= 1
                            && !(a.Has(Attr.Args) && a.Has(Attr.CaptureArgs)))
                && endPoints == if ok && !a.IsLink() then old(endPoints) + [registered] else old(endPoints)
    {
      hide Coherent, NoEmptyParts, Adds;
      registered := a;
      var chainedList := a.Values(Attr.Chained);
      if |chainedList| == 0 {
        return false, a;
      }
      if |chainedList| > 1 {
        return false, a;
      }
      var chainedTo := chainedList[0];
      if chainedTo == "/" + a.name {
        return false, a;
      }
      var pathPart := a.Values(Attr.PathPart);
      var part := a.name;
      if |pathPart| == 1 && pathPart[0] != "" {
        part := pathPart[0];
      } else if |pathPart| > 1 {
        return false, a;
      }
      if part[0] == '/' {
        return false, a;
      }
      registered := a.(attributes := a.attributes[Attr.PathPart := [part]]);
      File(registered, part);
      ghost var filed := State();
      if !CheckArgsAttr(registered, Attr.Args) || !CheckArgsAttr(registered, Attr.CaptureArgs) {
        return false, registered;
      }
      if registered.Has(Attr.Args) && registered.Has(Attr.CaptureArgs) {
        return false, registered;
      }
      if !registered.Has(Attr.CaptureArgs) {
        endPoints := endPoints + [registered];
        EndPointsAreApart(filed, State());
      }
      ok := true;
    }

    /** The tables take an action in, under its own `Chained` value and part. */
    method File(a: Action, part: string)
      requires Searchable() && a.Has(Attr.Chained) && a.PathPart() == part && part != "" && a.reverse != ""
      modifies this`actions, this`childrenOf
      ensures Searchable() && actions == old(actions)[a.Private() := a]
      ensures Adds(old(childrenOf), childrenOf, a, a.Parent(), part)
      ensures old(Valid()) ==> (Valid() <==> NameFree(old(State()), a))
    {
      hide Coherent, NoEmptyParts, Adds, NameFree;
      var chainedTo := a.Parent();
      var children := if chainedTo in childrenOf then childrenOf[chainedTo] else map[];
      var siblings := if part in children then children[part] else [];
      childrenOf := childrenOf[chainedTo := children[part := [a] + siblings]];
      actions := actions["/" + a.reverse := a];
      FilingAdds(old(childrenOf), a, chainedTo, part);
      FilingKeepsParts(old(State()), State(), a, part);
      if old(Valid()) {
        FilingKeepsCoherent(old(State()), State(), a, part);
      }
    }

    /** The best-match search, over the hash keys sorted by falling length in some order. */
    method RecurseMatch(reqArgsSize: int, parent: string, pathParts: seq<string>) returns (bestAction: Best)
      requires Searchable() && Plain(pathParts)
      ensures bestAction == BestMatch(State(), reqArgsSize, parent, pathParts)
      ensures exists h :: Succession(State(), reqArgsSize, parent, pathParts, h, END, bestAction)
      decreases |pathParts|, 0
    {
      hide NoEmptyParts, Join, CountSlashes, Plain, Succession;
      ghost var h := ChoiceSucceeds(State(), reqArgsSize, parent, pathParts);
      bestAction := NO_BEST;
      if parent !in childrenOf {
        return;
      }
      var children := childrenOf[parent];
      var keys := SortedKeys(children);
      ghost var t := State();
      ghost var goal := OverPrefixes(t, reqArgsSize, children, pathParts, |pathParts|, NO_BEST);
      ghost var k := |pathParts|;
      var i := 0;
      while i < |keys|
        invariant 0 <= i <= |keys| && 0 <= k <= |pathParts|
        invariant goal == OverPrefixes(t, reqArgsSize, children, pathParts, k, bestAction)
        invariant forall j, m :: 0 <= j < i && 1 <= m <= k ==> keys[j] != Join(pathParts[..m])
        invariant forall j, m :: i <= j < |keys| && k < m <= |pathParts| ==> keys[j] != Join(pathParts[..m])
      {
        var tryPart := keys[i];
        NoEmptyPart(t, parent, tryPart);
        var tryPartCount := CountSlashes(tryPart) + 1;
        var possiblePartsString := Join(pathParts[..if tryPartCount <= |pathParts| then tryPartCount else |pathParts|]);
        if tryPart != possiblePartsString {
          KeyMissesPath(tryPart, pathParts, tryPartCount);
          i := i + 1;
          continue;
        }
        KeyFitsPath(tryPart, pathParts, tryPartCount, k);
        SkipLonger(t, reqArgsSize, children, pathParts, keys, i, tryPartCount, k, bestAction);
        k := tryPartCount;
        PlainRest(pathParts, tryPartCount);
        bestAction := TryActions(reqArgsSize, children[tryPart], pathParts[tryPartCount..], bestAction);
        KeysOrdered(keys, i, pathParts, k);
        k := k - 1;
        i := i + 1;
      }
      SkipTo(t, reqArgsSize, children, pathParts, 0, k, bestAction);
    }

    /** The actions registered under one part, tried in their stored order against what follows. */
    method TryActions(reqArgsSize: int, tryActions: seq<Action>, parts: seq<string>, best: Best)
      returns (bestAction: Best)
      requires Searchable() && Plain(parts)
      ensures bestAction == OverActions(State(), reqArgsSize, tryActions, parts, best)
      decreases |parts|, 1
    {
      hide NoEmptyParts;
      ghost var t := State();
      bestAction := best;
      var n := 0;
      while n < |tryActions|
        invariant 0 <= n <= |tryActions|
        invariant OverActions(t, reqArgsSize, tryActions[n..], parts, bestAction)
                  == OverActions(t, reqArgsSize, tryActions, parts, best)
      {
        var action := tryActions[n];
        ghost var before := bestAction;
        if action.Has(Attr.CaptureArgs) {
          var split := CaptureSplit(action, parts);
          if split.Some? {
            var (captures, localParts) := split.value;
            var ret := RecurseMatch(reqArgsSize, "/" + action.reverse, localParts);
            if ret.actions != [] && Better(ret, bestAction) {
              bestAction := Best([action] + ret.actions, captures + ret.captures, ret.parts,
                                 CountSlashes(action.Value(Attr.PathPart)) + 1 + ret.nPathParts, false);
            }
          }
        } else if action.Match(reqArgsSize + |parts|) {
          if bestAction.isNull || |parts| < |bestAction.parts|
             || (parts == [] && action.Value(Attr.Args) != "" && action.numberOfArgs == 0)
          {
            bestAction := Best([action], [], parts, CountSlashes(action.Value(Attr.PathPart)) + 1, false);
          }
        }
        assert bestAction == Consider(t, reqArgsSize, action, parts, before);
        assert tryActions[n..][1..] == tryActions[n + 1..];
        n := n + 1;
      }
      assert tryActions[n..] == [];
    }

    /** Chained routes are tried only for a whole path. The chain found is the line of its end
        point and its URI is the consumed part of the path; the parts it leaves are decoded. */
    method Match(path: string, args: seq<string>) returns (r: Option<Best>, decodedArgs: seq<string>)
      requires Searchable() && path != "" && path[0] == '/'
      ensures var b := BestMatch(State(), 0, "/", Split(path[1..]));
              && r == (if args != [] || b.isNull then None else Some(b))
              && (r.Some? ==> decodedArgs == DecodedArguments(b.parts))
              && RootResult(State(), Split(path[1..]), b)
              && (Valid() ==> LineResult(State(), Split(path[1..]), b))
    {
      hide Coherent, NoEmptyParts;
      var parts := Split(path[1..]);
      RootSearch(State(), parts);
      if Coherent(State()) {
        RootMatch(State(), parts);
      }
      if args != [] {
        return None, [];
      }
      var ret := RecurseMatch(0, "/", parts);
      if ret.isNull || ret.actions == [] {
        return None, [];
      }
      decodedArgs := DecodeAll(ret.parts);
      r := Some(ret);
    }

    /** The walk up from an end point. It ends because the action has a line. */
    method UriForAction(action: Action, captures: seq<string>, ghost line: seq<Action>) returns (uri: Option<string>)
      requires Valid()
      requires Lineage(State(), line) && line[|line| - 1] == action
      ensures uri == if action.Has(Attr.Chained) && !action.IsLink() then Uri(line, captures) else None
    {
      if !(action.Has(Attr.Chained) && !action.Has(Attr.CaptureArgs)) {
        return None;
      }
      NothingTaken(captures);
      assert line != [];
      hide Coherent, Lineage, Needed, UriParts, Climb;
      var parent := "";
      var localCaptures := captures;
      var parts := [];
      var curr := Some(action);
      ghost var i := |line|;
      ghost var below: seq<Action> := [];
      while curr.Some?
        invariant 0 <= i <= |line| && below == line[i..]
        invariant curr == if i == 0 then None else Some(line[i - 1])
        invariant i < |line| ==> parent == line[i].Parent()
        invariant |localCaptures| + Needed(below) == |captures|
        invariant localCaptures == captures[..|localCaptures|]
        invariant parts == UriParts(below, captures[|localCaptures|..])
        decreases i
      {
        var a := curr.value;
        TailStep(line, i - 1);
        var climbed := Climb(a, localCaptures, parts);
        ClimbSpells(a, below, captures, localCaptures, parts);
        if climbed.None? {
          TooManyNeeded(line, i - 1, a, below);
          return None;
        }
        localCaptures, parts := climbed.value.0, climbed.value.1;
        below := [a] + below;
        parent := a.Value(Attr.Chained);
        LineageUp(State(), line, i - 1);
        curr := if parent in actions then Some(actions[parent]) else None;
        i := i - 1;
      }
      assert below == line;
      if parent != "/" {
        return None;
      }
      if localCaptures != [] {
        return None;
      }
      assert captures[0..] == captures;
      uri := Some("/" + Join(parts));
    }

    /** The chain an action stands for: its line, or nothing when it is not chained. */
    method ExpandAction(action: Action, ghost line: seq<Action>) returns (chain: Option<seq<Action>>)
      requires Lineage(State(), line) && line[|line| - 1] == action
      ensures chain == if action.Has(Attr.Chained) then Some(line) else None
    {
      if !action.Has(Attr.Chained) {
        return None;
      }
      var walked: seq<Action> := [];
      var curr := Some(action);
      ghost var i := |line|;
      while curr.Some?
        invariant 0 <= i <= |line| && walked == line[i..]
        invariant curr == if i == 0 then None else Some(line[i - 1])
        decreases i
      {
        walked := [curr.value] + walked;
        var parent := curr.value.Value(Attr.Chained);
        LineageUp(State(), line, i - 1);
        curr := if parent in actions then Some(actions[parent]) else None;
        i := i - 1;
      }
      chain := Some(walked);
    }
  }

  function Siblings(childrenOf: map<string, map<string, seq<Action>>>, parent: string, part: string): seq<Action> {
    if parent in childrenOf && part in childrenOf[parent] then childrenOf[parent][part] else []
  }

  /** The test the program makes for `Args` and `CaptureArgs`: one value at most. A value that is
      no number is never refused, because its conversion gives 0. */
  predicate CheckArgsAttr(a: Action, name: Attr) {
    |a.Values(name)| <= 1
  }

  ghost predicate LongestFirst(keys: seq<string>) {
    forall i, j :: 0 <= i < j < |keys| ==> keys[i] != keys[j] && |keys[i]| >= |keys[j]|
  }

  lemma OneKeyMore(keys: seq<string>, key: string)
    requires LongestFirst(keys) && key !in keys && forall i :: 0 <= i < |keys| ==> |keys[i]| >= |key|
    ensures LongestFirst(keys + [key])
  {
    var more := keys + [key];
    forall i, j | 0 <= i < j < |more|
      ensures more[i] != more[j] && |more[i]| >= |more[j]|
    {
      assert more[i] == keys[i];
      if j < |keys| {
        assert more[j] == keys[j];
      }
    }
  }

  /** Hash keys, longest first. */
  method SortedKeys(children: map<string, seq<Action>>) returns (keys: seq<string>)
    ensures forall key :: key in keys <==> key in children
    ensures LongestFirst(keys)
  {
    keys := [];
    var remaining := children.Keys;
    while remaining != {}
      invariant remaining <= children.Keys
      invariant forall key :: key in keys <==> key in children.Keys - remaining
      invariant LongestFirst(keys)
      invariant forall i, key :: 0 <= i < |keys| && key in remaining ==> |keys[i]| >= |key|
      decreases remaining
    {
      var longest :| longest in remaining;
      var pool := remaining - {longest};
      while pool != {}
        invariant pool <= remaining && longest in remaining
        invariant forall key :: key in remaining - pool ==> |longest| >= |key|
        decreases pool
      {
        var key :| key in pool;
        if |key| > |longest| {
          longest := key;
        }
        pool := pool - {key};
      }
      OneKeyMore(keys, longest);
      keys := keys + [longest];
      remaining := remaining - {longest};
    }
  }

  lemma NoEmptyPart(t: Tables, parent: string, part: string)
    requires NoEmptyParts(t) && parent in t.childrenOf && part in t.childrenOf[parent]
    ensures part != ""
  {
  }

  /** What a search from the root finds: nothing if nothing matches, else a chain that leaves the
      fewest parts, chosen among these by succession. */
  ghost predicate RootResult(t: Tables, parts: seq<string>, b: Best) {
    && (b.isNull <==> forall chain, captures, rest :: !Matches(t, 0, "/", parts, chain, captures, rest))
    && (exists h :: Succession(t, 0, "/", parts, h, END, b))
    && (!b.isNull ==>
          && b.actions != []
          && Matches(t, 0, "/", parts, b.actions, b.captures, b.parts)
          && forall chain, captures, rest :: Matches(t, 0, "/", parts, chain, captures, rest)
                                             ==> |b.parts| <= |rest|)
  }

  /** In coherent tables the chain is the line of its end point, and spells the consumed part if and only
      if all above the end point are links with a number of captures. */
  ghost predicate LineResult(t: Tables, parts: seq<string>, b: Best) {
    !b.isNull ==>
      && b.actions != [] && Lineage(t, b.actions)
      && |b.parts| < |parts| && b.parts == parts[|parts| - |b.parts|..]
      && (Uri(b.actions, b.captures) == Some("/" + Join(parts[..|parts| - |b.parts|])) <==> Linked(b.actions))
  }

  lemma RootSearch(t: Tables, parts: seq<string>)
    ensures RootResult(t, parts, BestMatch(t, 0, "/", parts))
  {
    hide Succession, BestMatch;
    SearchIsExact(t, 0, "/", parts);
    var h := ChoiceSucceeds(t, 0, "/", parts);
    var b := BestMatch(t, 0, "/", parts);
    assert Succession(t, 0, "/", parts, h, END, b);
    assert b.isNull <==> forall chain, captures, rest :: !Matches(t, 0, "/", parts, chain, captures, rest);
  }

  lemma RootMatch(t: Tables, parts: seq<string>)
    requires Coherent(t) && Plain(parts)
    ensures var b := BestMatch(t, 0, "/", parts);
            RootResult(t, parts, b) && LineResult(t, parts, b)
  {
    hide Coherent, Matches, Uri, Linked, Lineage, BestMatch, Join, Plain, Succession;
    var b := BestMatch(t, 0, "/", parts);
    RootSearch(t, parts);
    if !b.isNull {
      MatchIsLineage(t, 0, parts, b.actions, b.captures, b.parts);
      MatchUri(t, 0, parts, b.actions, b.captures, b.parts);
    }
  }

  /** `a` becomes the first of the actions under one parent and part; all others stay. */
  ghost predicate Adds(before: map<string, map<string, seq<Action>>>, after: map<string, map<string, seq<Action>>>,
                       a: Action, parent: string, part: string)
  {
    && after.Keys == before.Keys + {parent}
    && Siblings(after, parent, part) == [a] + Siblings(before, parent, part)
    && (forall q, p :: q != parent || p != part ==> Siblings(after, q, p) == Siblings(before, q, p))
  }

  lemma FilingAdds(before: map<string, map<string, seq<Action>>>, a: Action, parent: string, part: string)
    ensures var children := if parent in before then before[parent] else map[];
            Adds(before, before[parent := children[part := [a] + Siblings(before, parent, part)]], a, parent, part)
  {
  }

  /** An action is filed under its own `Chained` and a part, in front, and found by its private name. */
  ghost predicate Files(t: Tables, t': Tables, a: Action, part: string) {
    && t'.actions == t.actions[a.Private() := a]
    && var children := if a.Parent() in t.childrenOf then t.childrenOf[a.Parent()] else map[];
       t'.childrenOf
       == t.childrenOf[a.Parent() := children[part := [a] + Siblings(t.childrenOf, a.Parent(), part)]]
  }

  lemma FilingKeepsParts(t: Tables, t': Tables, a: Action, part: string)
    requires NoEmptyParts(t) && part != ""
    requires Files(t, t', a, part)
    ensures NoEmptyParts(t')
  {
  }

  /** Filing an action under its own `Chained` and part keeps the tables coherent if and only if it takes
      no other action's private name. */
  lemma FilingKeepsCoherent(t: Tables, t': Tables, a: Action, part: string)
    requires Coherent(t) && a.reverse != ""
    requires a.Has(Attr.Chained) && a.PathPart() == part && part != ""
    requires Files(t, t', a, part)
    ensures Coherent(t') <==> NameFree(t, a)
  {
    if !NameFree(t, a) {
      NameTaken(t, t', a, part);
      return;
    }
    assert t'.childrenOf[a.Parent()][part][0] == a;
    forall key | key in t'.actions
      ensures t'.actions[key].Private() == key && Registered(t', t'.actions[key])
    {
      if t'.actions[key] != a {
        RegisteredStays(t, t', a, part, t.actions[key]);
      }
    }
    FiledStays(t, t', a, part);
  }

  /** A refused action stays filed, and the next of its name, which is then passed on as new, takes the
      name from it. */
  method RefusedActionLosesItsName() returns (d: DispatchTypeChained, first: bool, second: bool)
    ensures !first && second && d.Searchable() && !d.Valid()
  {
    hide Coherent, NoEmptyParts, Adds;
    var refused := Action("x", "x", map[Attr.Chained := ["/"], Attr.Args := ["0"], Attr.CaptureArgs := ["0"]], 0, 0);
    var another := Action("x", "x", map[Attr.Chained := ["/"], Attr.Args := ["1"]], 1, -1);
    assert refused.Private() == another.Private() == "/x";
    assert "/x"[0] == '/' && "x"[0] == 'x';
    d := new DispatchTypeChained();
    var filed, taken;
    first, filed := d.RegisterAction(refused);
    second, taken := d.RegisterAction(another);
    assert filed.numberOfArgs != taken.numberOfArgs;
  }

  lemma FiledStays(t: Tables, t': Tables, a: Action, part: string)
    requires Coherent(t) && NameFree(t, a) && a.reverse != ""
    requires a.Has(Attr.Chained) && a.PathPart() == part && part != ""
    requires Files(t, t', a, part)
    ensures forall parent, p, i :: parent in t'.childrenOf && p in t'.childrenOf[parent]
                                   && 0 <= i < |t'.childrenOf[parent][p]|
              ==> Filed(t', parent, p, t'.childrenOf[parent][p][i])
  {
    hide Coherent, Filed, NameFree;
    NewIsFiled(t', a, part);
    forall parent, p, i | parent in t'.childrenOf && p in t'.childrenOf[parent]
                          && 0 <= i < |t'.childrenOf[parent][p]|
      ensures Filed(t', parent, p, t'.childrenOf[parent][p][i])
    {
      Whence(t, t', a, part, parent, p, i);
      var j := if parent == a.Parent() && p == part then i - 1 else i;
      if j >= 0 {
        FiledIs(t, parent, p, j);
        StillFiled(t, t', a, parent, p, t.childrenOf[parent][p][j]);
      }
    }
  }

  lemma NewIsFiled(t': Tables, a: Action, part: string)
    requires a.Private() in t'.actions && t'.actions[a.Private()] == a
    requires a.Has(Attr.Chained) && a.PathPart() == part && part != ""
    ensures Filed(t', a.Parent(), part, a)
  {
  }

  lemma FiledIs(t: Tables, parent: string, p: string, j: nat)
    requires Coherent(t) && parent in t.childrenOf && p in t.childrenOf[parent] && j < |t.childrenOf[parent][p]|
    ensures Filed(t, parent, p, t.childrenOf[parent][p][j])
  {
  }

  lemma StillFiled(t: Tables, t': Tables, a: Action, parent: string, p: string, x: Action)
    requires NameFree(t, a) && t'.actions == t.actions[a.Private() := a] && Filed(t, parent, p, x)
    ensures Filed(t', parent, p, x)
  {
  }

  /** Whoever is filed afterwards is the new action, or was filed before. */
  lemma Whence(t: Tables, t': Tables, a: Action, part: string, parent: string, p: string, i: nat)
    requires Files(t, t', a, part)
    requires parent in t'.childrenOf && p in t'.childrenOf[parent] && i < |t'.childrenOf[parent][p]|
    ensures var x, own := t'.childrenOf[parent][p][i], parent == a.Parent() && p == part;
            if own && i == 0 then x == a
            else
              var j := if own then i - 1 else i;
              && parent in t.childrenOf && p in t.childrenOf[parent] && j < |t.childrenOf[parent][p]|
              && x == t.childrenOf[parent][p][j]
  {
  }

  /** No other action has this action's private name. */
  predicate NameFree(t: Tables, a: Action) {
    a.Private() in t.actions ==> t.actions[a.Private()] == a
  }

  /** The action that had the name stays filed as a child, and is not found by its name. */
  lemma NameTaken(t: Tables, t': Tables, a: Action, part: string)
    requires Coherent(t) && !NameFree(t, a) && Files(t, t', a, part)
    ensures !Coherent(t')
  {
    var b := t.actions[a.Private()];
    assert Registered(t, b);
    RegisteredStays(t, t', a, part, b);
    var i :| 0 <= i < |t'.childrenOf[b.Parent()][b.PathPart()]| && t'.childrenOf[b.Parent()][b.PathPart()][i] == b;
    assert !Filed(t', b.Parent(), b.PathPart(), b);
  }

  lemma RegisteredStays(t: Tables, t': Tables, a: Action, part: string, b: Action)
    requires Registered(t, b)
    requires Files(t, t', a, part)
    ensures Registered(t', b)
  {
    var i :| 0 <= i < |t.childrenOf[b.Parent()][b.PathPart()]| && t.childrenOf[b.Parent()][b.PathPart()][i] == b;
    if b.Parent() == a.Parent() && b.PathPart() == part {
      assert t'.childrenOf[b.Parent()][b.PathPart()][i + 1] == b;
    }
  }

  lemma PlainRest(parts: seq<string>, n: nat)
    requires Plain(parts) && n <= |parts|
    ensures Plain(parts[n..])
  {
  }

  /** A key equal to the parts it has slashes for really is a prefix of the path. */
  lemma KeyFitsPath(key: string, parts: seq<string>, count: nat, k: nat)
    requires Plain(parts) && key != "" && count == CountSlashes(key) + 1 && k <= |parts|
    requires key == Join(parts[..if count <= |parts| then count else |parts|])
    requires forall m :: k < m <= |parts| ==> key != Join(parts[..m])
    ensures count <= k
  {
    if count > |parts| {
      assert parts[..|parts|] == parts;
      CountJoin(parts);
    }
  }

  lemma KeyMissesPath(key: string, parts: seq<string>, count: nat)
    requires Plain(parts) && count == CountSlashes(key) + 1
    requires key != Join(parts[..if count <= |parts| then count else |parts|])
    ensures forall m :: 1 <= m <= |parts| ==> key != Join(parts[..m])
  {
    forall m | 1 <= m <= |parts|
      ensures key != Join(parts[..m])
    {
      CountJoin(parts[..m]);
    }
  }

  /** No key lies between the one just met and the prefixes already handled. */
  lemma SkipLonger(t: Tables, req: int, children: map<string, seq<Action>>, parts: seq<string>,
                   keys: seq<string>, i: nat, m: nat, k: nat, best: Best)
    requires i < |keys| && 1 <= m <= k <= |parts| && keys[i] == Join(parts[..m])
    requires forall key :: key in keys <==> key in children
    requires LongestFirst(keys)
    requires forall j, n :: 0 <= j < i && 1 <= n <= k ==> keys[j] != Join(parts[..n])
    ensures OverPrefixes(t, req, children, parts, k, best) == OverPrefixes(t, req, children, parts, m, best)
  {
    forall j | m < j <= k
      ensures Join(parts[..j]) !in children
    {
      if Join(parts[..j]) in keys {
        var n :| 0 <= n < |keys| && keys[n] == Join(parts[..j]);
        JoinPrefixLonger(parts, m, j);
        assert false;
      }
    }
    SkipTo(t, req, children, parts, m, k, best);
  }

  lemma KeysOrdered(keys: seq<string>, i: nat, parts: seq<string>, k: nat)
    requires i < |keys| && 1 <= k <= |parts| && keys[i] == Join(parts[..k])
    requires LongestFirst(keys)
    ensures forall j, m :: i < j < |keys| && k <= m <= |parts| ==> keys[j] != Join(parts[..m])
    ensures forall m :: 1 <= m < k ==> keys[i] != Join(parts[..m])
  {
    forall j, m | i < j < |keys| && k <= m <= |parts|
      ensures keys[j] != Join(parts[..m])
    {
      if m > k {
        JoinPrefixLonger(parts, k, m);
      }
    }
    forall m | 1 <= m < k
      ensures keys[i] != Join(parts[..m])
    {
      JoinPrefixLonger(parts, m, k);
    }
  }

  lemma LineageUp(t: Tables, line: seq<Action>, i: nat)
    requires Lineage(t, line) && i < |line|
    ensures i == 0 ==> line[i].Parent() !in t.actions
    ensures i > 0 ==> line[i].Parent() in t.actions && t.actions[line[i].Parent()] == line[i - 1]
  {
  }

  lemma TailStep(line: seq<Action>, i: nat)
    requires i < |line|
    ensures line[i..] == [line[i]] + line[i + 1..]
  {
  }

  lemma TooManyNeeded(line: seq<Action>, i: nat, a: Action, below: seq<Action>)
    requires i < |line| && line[i..] == [a] + below
    ensures Needed(line) >= Taken(a) + Needed(below)
  {
    NeededConcat(line[..i], [a] + below);
    NeededConcat([a], below);
    assert line == line[..i] + line[i..];
  }

  lemma NothingTaken(captures: seq<string>)
    ensures Needed([]) == 0 && UriParts([], captures[|captures|..]) == []
  {
  }

  /** What the walk does at one action: cut its captures off the right end and put them, after the
      action's own part, in front of the parts; nothing if too few captures are left. */
  function Climb(a: Action, local: seq<string>, parts: seq<string>): Option<(seq<string>, seq<string>)> {
    if a.Has(Attr.CaptureArgs) && |local| < a.numberOfCaptures then None
    else
      var n := if a.Has(Attr.CaptureArgs) && a.numberOfCaptures > 0 then a.numberOfCaptures else 0;
      var taken := local[|local| - n..] + parts;
      Some((local[..|local| - n],
            if a.Value(Attr.PathPart) == "" then taken else [a.Value(Attr.PathPart)] + taken))
  }

  lemma ClimbSpells(a: Action, below: seq<Action>, captures: seq<string>, local: seq<string>, parts: seq<string>)
    requires |local| + Needed(below) == |captures| && local == captures[..|local|]
    requires parts == UriParts(below, captures[|local|..])
    ensures Climb(a, local, parts) == None <==> Taken(a) > |local|
    ensures Climb(a, local, parts).Some? ==>
              var (local', parts') := Climb(a, local, parts).value;
              && |local'| + Needed([a] + below) == |captures| && local' == captures[..|local'|]
              && parts' == UriParts([a] + below, captures[|local'|..])
  {
    if Taken(a) <= |local| {
      OwnParts(a, below, captures, |local|);
    }
  }

  lemma OwnParts(a: Action, below: seq<Action>, captures: seq<string>, n: nat)
    requires n + Needed(below) == |captures| && Taken(a) <= n
    ensures Needed([a] + below) == Taken(a) + Needed(below)
    ensures var m := n - Taken(a);
            && captures[..n][..m] == captures[..m]
            && UriParts([a] + below, captures[m..])
               == (if a.PathPart() == "" then captures[..n][m..] + UriParts(below, captures[n..])
                   else [a.PathPart()] + (captures[..n][m..] + UriParts(below, captures[n..])))
  {
    hide Needed, UriParts, Taken;
    var m := n - Taken(a);
    CutTwice(captures, m, n);
    PartsOfOne(a, below, captures[m..]);
  }

  lemma CutTwice(captures: seq<string>, m: nat, n: nat)
    requires m <= n <= |captures|
    ensures captures[m..][..n - m] == captures[..n][m..] && captures[m..][n - m..] == captures[n..]
    ensures captures[..n][..m] == captures[..m]
  {
  }

  lemma PartsOfOne(a: Action, below: seq<Action>, own: seq<string>)
    requires |own| == Taken(a) + Needed(below)
    ensures Needed([a] + below) == |own|
    ensures var mine, tail := own[..Taken(a)], UriParts(below, own[Taken(a)..]);
            UriParts([a] + below, own)
            == if a.PathPart() == "" then mine + tail else [a.PathPart()] + (mine + tail)
  {
    hide Taken;
    NoPartBefore(a, own);
    assert ([a] + below)[1..] == below;
  }

  lemma NoPartBefore(a: Action, own: seq<string>)
    requires Taken(a) <= |own|
    ensures [] + own[..Taken(a)] == own[..Taken(a)]
  {
  }

  lemma EndPointsAreApart(t: Tables, t': Tables)
    requires t'.actions == t.actions && t'.childrenOf == t.childrenOf
    ensures (Coherent(t) <==> Coherent(t')) && (NoEmptyParts(t) <==> NoEmptyParts(t'))
  {
    if Coherent(t) {
      SameTables(t, t');
    }
    if Coherent(t') {
      SameTables(t', t);
    }
  }

  lemma SameTables(t: Tables, t': Tables)
    requires Coherent(t) && t'.actions == t.actions && t'.childrenOf == t.childrenOf
    ensures Coherent(t')
  {
    forall key | key in t'.actions
      ensures t'.actions[key].Private() == key && Registered(t', t'.actions[key])
    {
      assert Registered(t, t.actions[key]);
    }
    forall parent, p, i | parent in t'.childrenOf && p in t'.childrenOf[parent]
                          && 0 <= i < |t'.childrenOf[parent][p]|
      ensures Filed(t', parent, p, t'.childrenOf[parent][p][i])
    {
      assert Filed(t, parent, p, t.childrenOf[parent][p][i]);
    }
  }
}
