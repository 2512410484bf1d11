/** Choosing the action of a request: the path dispatcher's table, and the loop that takes parts off
    the path until a dispatcher matches. */
module PathDispatch {
  import opened Basics
  import opened Slashes
  import opened ChainedRouting
  import opened ChainedDispatcher
  import opened Arguments

  datatype MatchType = NoMatch | PartialMatch | ExactMatch

  datatype Target = Single(action: Action) | Chain(best: Best)

  /** What the request is given: the action, its arguments and captures, and the matched path. */
  datatype Choice = Choice(target: Target, arguments: seq<string>, captures: seq<string>, matched: string)

  datatype Kind = ByPath | ByChain

  /** The action of this arity, if there is one. -1 is the arity of an action that takes any arguments. */
  function WithArity(actions: seq<Action>, n: int): (r: Option<Action>)
    ensures r.Some? ==> r.value in actions && r.value.numberOfArgs == n
    ensures r.None? ==> forall a <- actions :: a.numberOfArgs != n
  {
    if actions == [] then None
    else if actions[0].numberOfArgs == n then Some(actions[0])
    else WithArity(actions[1..], n)
  }

  /** Distinct arities in increasing order. */
  ghost predicate Ordered(actions: seq<Action>) {
    forall i, j :: 0 <= i < j < |actions| ==> actions[i].numberOfArgs < actions[j].numberOfArgs
  }

  class DispatchTypePath {
    var paths: map<string, seq<Action>>

    ghost predicate Valid()
      reads this
    {
      forall p <- paths :: paths[p] != [] && Ordered(paths[p])
    }

    constructor ()
      ensures Valid() && paths == map[]
    {
      paths := map[];
    }

    /** A second action of one arity under one path is refused. */
    method RegisterPath(path: string, action: Action) returns (ok: bool)
      requires Valid()
      modifies this
      ensures Valid()
      ensures var p := if path == "" then "/" else if path[0] != '/' then "/" + path else path;
              var before := if p in old(paths) then old(paths)[p] else [];
              if WithArity(before, action.numberOfArgs).Some? then !ok && paths == old(paths)
              else
                && ok && p in paths && paths == old(paths)[p := paths[p]]
                && multiset(paths[p]) == multiset(before) + multiset{action}
    {
      var p := path;
      if p == "" {
        p := "/";
      } else if p[0] != '/' {
        p := "/" + p;
      }
      if p in paths {
        if WithArity(paths[p], action.numberOfArgs).Some? {
          return false;
        }
        var sorted := Sorted(paths[p], action);
        paths := paths[p := sorted];
      } else {
        assert Ordered([action]);
        paths := paths[p := [action]];
      }
      ok := true;
    }

    /** `match`: an action of exactly this many arguments is taken; an action that takes any number
        only if the request has no action yet. */
    method Match(c: Request, path: string, args: seq<string>) returns (ret: MatchType)
      requires Valid()
      modifies c
      ensures var exact, any := ExactAt(paths, path, args), AnyAt(paths, path, args);
              if exact.Some? then ret == ExactMatch && c.choice == exact
              else if any.Some? && old(c.choice).None? then ret == PartialMatch && c.choice == any
              else ret == NoMatch && c.choice == old(c.choice)
    {
      hide WithArity, Ordered;
      ret := NoMatch;
      NoActions(|args|);
      NoActions(-1);
      if path !in paths {
        return;
      }
      var actions := paths[path];
      ghost var exact, any := WithArity(actions, |args|), WithArity(actions, -1);
      assert actions[0..] == actions;
      for i := 0 to |actions|
        invariant WithArity(actions[i..], |args|) == exact
        invariant if WithArity(actions[i..], -1) == any then ret == NoMatch && c.choice == old(c.choice)
                  else
                    && WithArity(actions[i..], -1).None? && any.Some?
                    && if old(c.choice).None? then ret == PartialMatch && c.choice == AnyAt(paths, path, args)
                       else ret == NoMatch && c.choice == old(c.choice)
      {
        OneLess(actions, i, |args|);
        OneLess(actions, i, -1);
        if actions[i].numberOfArgs == |args| {
          c.choice := Some(Choice(Single(actions[i]), args, [], path));
          return ExactMatch;
        } else if actions[i].numberOfArgs == -1 && c.choice.None? {
          c.choice := Some(Choice(Single(actions[i]), args, [], path));
          ret := PartialMatch;
        }
      }
      assert actions[|actions|..] == [];
    }
  }

  lemma NoActions(n: int)
    ensures WithArity([], n).None?
  {
  }

  function At(paths: map<string, seq<Action>>, path: string): seq<Action> {
    if path in paths then paths[path] else []
  }

  /** The choice of the action with just this many arguments. */
  function ExactAt(paths: map<string, seq<Action>>, path: string, args: seq<string>): Option<Choice> {
    var a := WithArity(At(paths, path), |args|);
    if a.Some? then Some(Choice(Single(a.value), args, [], path)) else None
  }

  /** The choice of the action with any number of arguments. */
  function AnyAt(paths: map<string, seq<Action>>, path: string, args: seq<string>): Option<Choice> {
    var a := WithArity(At(paths, path), -1);
    if a.Some? then Some(Choice(Single(a.value), args, [], path)) else None
  }

  lemma OneLess(actions: seq<Action>, i: nat, n: int)
    requires Ordered(actions) && i < |actions|
    ensures WithArity(actions[i..], n)
            == if actions[i].numberOfArgs == n then Some(actions[i]) else WithArity(actions[i + 1..], n)
    ensures actions[i].numberOfArgs == n ==> WithArity(actions[i + 1..], n).None?
  {
    assert actions[i..][1..] == actions[i + 1..];
  }

  class Request {
    /** The action, arguments, captures and match, once there are any. */
    var choice: Option<Choice>

    constructor ()
      ensures choice.None?
    {
      choice := None;
    }
  }

  /** The actions after `push_back` and `sort`. */
  method Sorted(actions: seq<Action>, action: Action) returns (r: seq<Action>)
    requires Ordered(actions) && WithArity(actions, action.numberOfArgs).None?
    ensures Ordered(r) && r != [] && multiset(r) == multiset(actions) + multiset{action}
  {
    var k := 0;
    while k < |actions| && actions[k].numberOfArgs < action.numberOfArgs
      invariant k <= |actions| && forall i :: 0 <= i < k ==> actions[i].numberOfArgs < action.numberOfArgs
    {
      k := k + 1;
    }
    if k < |actions| {
      assert actions[k] in actions;
    }
    Inserted(actions, k, action);
    OneMore(actions, k, action);
    hide Ordered;
    r := actions[..k] + [action] + actions[k..];
  }

  lemma OneMore(actions: seq<Action>, k: nat, action: Action)
    requires k <= |actions|
    ensures multiset(actions[..k] + [action] + actions[k..]) == multiset(actions) + multiset{action}
  {
    assert actions == actions[..k] + actions[k..];
  }

  lemma Inserted(actions: seq<Action>, k: nat, action: Action)
    requires Ordered(actions) && k <= |actions|
    requires forall i :: 0 <= i < k ==> actions[i].numberOfArgs < action.numberOfArgs
    requires k < |actions| ==> action.numberOfArgs < actions[k].numberOfArgs
    ensures Ordered(actions[..k] + [action] + actions[k..])
  {
    var r := actions[..k] + [action] + actions[k..];
    forall i, j | 0 <= i < j < |r|
      ensures r[i].numberOfArgs < r[j].numberOfArgs
    {
      assert r[i] == if i < k then actions[i] else if i == k then action else actions[i - 1];
      assert r[j] == if j < k then actions[j] else if j == k then action else actions[j - 1];
    }
  }

  // ----- Levels of a path ----------------------------------------------------------------------

  predicate Rooted(path: string) {
    path != "" && path[0] == '/'
  }

  function Parts(path: string): (parts: seq<string>)
    requires Rooted(path)
    ensures parts != []
  {
    Split(path[1..])
  }

  /** How many parts can be taken off before only the root is left. */
  function Depth(path: string): nat
    requires Rooted(path)
  {
    if Parts(path)[0] == "" then |Parts(path)| - 1 else |Parts(path)|
  }

  /** What is left of a path after k parts were taken off, and those parts. */
  function Prefix(path: string, k: nat): string
    requires Rooted(path) && k <= Depth(path)
  {
    if k < |Parts(path)| then "/" + Join(Parts(path)[..|Parts(path)| - k]) else "/"
  }

  function TakenArgs(path: string, k: nat): (args: seq<string>)
    requires Rooted(path) && k <= Depth(path)
    ensures |args| == k
  {
    Parts(path)[|Parts(path)| - k..]
  }

  /** The prefix and the arguments put together. */
  function Rejoined(path: string, k: nat): string
    requires Rooted(path) && k <= Depth(path)
  {
    var p, args := Prefix(path, k), TakenArgs(path, k);
    if args == [] then p else if p == "/" then p + Join(args) else p + "/" + Join(args)
  }

  /** The prefix and the arguments are the path again, unless an empty first part has become the root. */
  lemma PartsRejoin(path: string, k: nat)
    requires Rooted(path) && k <= Depth(path)
    ensures Rejoined(path, k) == path <==> !(k > 0 && Prefix(path, k) == "/" && Parts(path)[0] == "")
  {
    hide Join, Split;
    var parts := Parts(path);
    var n := |parts|;
    JoinSplit(path[1..]);
    assert path == "/" + Join(parts);
    if k == 0 {
      assert parts[..n] == parts && parts[n..] == [];
    } else if k == n {
      assert parts[0..] == parts;
      assert "/" + Join(parts) == path;
    } else {
      var head, tail := parts[..n - k], parts[n - k..];
      assert parts == head + tail;
      JoinConcat(head, tail);
      HeadOnly(head);
      CutOnce(Join(head), Join(tail));
    }
  }

  lemma CutOnce(head: string, tail: string)
    ensures (if "/" + head == "/" then ("/" + head) + tail else ("/" + head) + "/" + tail) == "/" + (head + "/" + tail)
            <==> head != ""
    ensures "/" + head == "/" <==> head == ""
  {
    var whole := "/" + (head + "/" + tail);
    if head == "" {
      assert |("/" + head) + tail| < |whole|;
    } else {
      assert |"/" + head| > 1;
      assert ("/" + head) + "/" + tail == whole;
    }
  }

  lemma HeadOnly(parts: seq<string>)
    requires parts != []
    ensures Join(parts) == "" ==> |parts| == 1 && parts[0] == ""
    ensures |parts| == 1 ==> Join(parts) == parts[0]
  {
  }

  // ----- The choice ----------------------------------------------------------------------------

  /** What a dispatcher chooses outright after k parts were taken off; chains only take whole paths. */
  ghost function ChosenBy(kind: Kind, paths: map<string, seq<Action>>, t: Tables, path: string, k: nat): Option<Choice>
    requires Rooted(path) && k <= Depth(path)
  {
    match kind
    case ByPath => ExactAt(paths, Prefix(path, k), TakenArgs(path, k))
    case ByChain =>
      var best := BestMatch(t, 0, "/", Parts(path));
      if k > 0 || best.isNull || best.actions == [] then None
      else
        Some(Choice(Chain(best), DecodedArguments(best.parts), best.captures,
                    best.actions[|best.actions| - 1].Private()))
  }

  /** The first dispatcher in order that chooses outright. */
  ghost function Chosen(order: seq<Kind>, paths: map<string, seq<Action>>, t: Tables, path: string,
                        k: nat): Option<Choice>
    requires Rooted(path) && k <= Depth(path)
  {
    if order == [] then None
    else if ChosenBy(order[0], paths, t, path, k).Some? then ChosenBy(order[0], paths, t, path, k)
    else Chosen(order[1..], paths, t, path, k)
  }

  /** The choice that stands when nobody chooses outright. */
  ghost function Fallback(order: seq<Kind>, paths: map<string, seq<Action>>, path: string, k: nat): Option<Choice>
    requires Rooted(path) && k <= Depth(path)
  {
    if ByPath in order then AnyAt(paths, Prefix(path, k), TakenArgs(path, k)) else None
  }

  /** The rule: the deepest prefix where some dispatcher chooses outright; if there is none, the deepest
      prefix with an action of any number of arguments; else nothing. */
  ghost predicate Rule(order: seq<Kind>, paths: map<string, seq<Action>>, t: Tables, path: string,
                       choice: Option<Choice>)
    requires Rooted(path)
  {
    if exists k :: 0 <= k <= Depth(path) && Chosen(order, paths, t, path, k).Some? then
      exists k :: 0 <= k <= Depth(path) && NoneBefore(order, paths, t, path, k)
                  && choice == Chosen(order, paths, t, path, k) && choice.Some?
    else if exists k :: 0 <= k <= Depth(path) && Fallback(order, paths, path, k).Some? then
      exists k :: 0 <= k <= Depth(path) && NoFallbackBefore(order, paths, path, k)
                  && choice == Fallback(order, paths, path, k) && choice.Some?
    else choice == None
  }

  ghost predicate NoneBefore(order: seq<Kind>, paths: map<string, seq<Action>>, t: Tables, path: string, k: nat)
    requires Rooted(path) && k <= Depth(path) + 1
  {
    forall j :: 0 <= j < k ==> Chosen(order, paths, t, path, j).None?
  }

  ghost predicate NoFallbackBefore(order: seq<Kind>, paths: map<string, seq<Action>>, path: string, k: nat)
    requires Rooted(path) && k <= Depth(path) + 1
  {
    forall j :: 0 <= j < k ==> Fallback(order, paths, path, j).None?
  }

  /** What the request holds before level k when nobody has chosen outright. */
  ghost predicate HeldBefore(order: seq<Kind>, paths: map<string, seq<Action>>, path: string, k: nat,
                             choice: Option<Choice>)
    requires Rooted(path) && k <= Depth(path) + 1
  {
    if choice.None? then NoFallbackBefore(order, paths, path, k)
    else exists j :: 0 <= j < k && NoFallbackBefore(order, paths, path, j) && choice == Fallback(order, paths, path, j)
  }

  class Dispatcher {
    const order: seq<Kind>
    const byPath: DispatchTypePath
    const byChain: DispatchTypeChained

    ghost predicate Valid()
      reads this, byPath, byChain
    {
      byPath.Valid() && byChain.Searchable()
    }

    constructor (order: seq<Kind>, byPath: DispatchTypePath, byChain: DispatchTypeChained)
      requires byPath.Valid() && byChain.Searchable()
      ensures Valid() && this.order == order && this.byPath == byPath && this.byChain == byChain
    {
      this.order, this.byPath, this.byChain := order, byPath, byChain;
    }

    /** `prepareAction`: the dispatchers are asked about ever shorter prefixes of the path. */
    method PrepareAction(c: Request, fullPath: string)
      requires Valid() && Rooted(fullPath) && c.choice.None?
      modifies c
      ensures Rule(order, byPath.paths, byChain.State(), fullPath, c.choice)
    {
      hide Rule, Chosen, Fallback, HeldBefore, NoneBefore, Prefix, TakenArgs, Depth, Rooted, LastSlash;
      var path, args := fullPath, [];
      ghost var k := 0;
      TopLevel(order, byPath.paths, byChain.State(), fullPath);
      while true
        invariant k <= Depth(fullPath) && path == Prefix(fullPath, k) && args == TakenArgs(fullPath, k)
        invariant NoneBefore(order, byPath.paths, byChain.State(), fullPath, k)
        invariant HeldBefore(order, byPath.paths, fullPath, k, c.choice)
        decreases Depth(fullPath) - k
      {
        ghost var held := c.choice;
        var matched := AskAll(c, fullPath, path, args, k);
        if matched {
          ChosenFollows(order, byPath.paths, byChain.State(), fullPath, k, c.choice);
          return;
        }
        OneLevel(order, byPath.paths, byChain.State(), fullPath, k, held, c.choice);
        AtRoot(fullPath, k);
        if |path| == 1 {
          NothingChosen(order, byPath.paths, byChain.State(), fullPath, c.choice);
          return;
        }
        var pos := LastIndexOf(path);
        TakenOff(fullPath, k, pos);
        args := [path[pos + 1..]] + args;
        path := if pos == 0 then path[..1] else path[..pos];
        k := k + 1;
      }
    }

    /** `any_of` over the dispatchers: it stops at the first exact match. */
    method AskAll(c: Request, ghost fullPath: string, path: string, args: seq<string>, ghost k: nat)
      returns (matched: bool)
      requires Valid() && Rooted(fullPath) && k <= Depth(fullPath) && path == Prefix(fullPath, k)
               && args == TakenArgs(fullPath, k)
      modifies c
      ensures var chosen := Chosen(order, byPath.paths, byChain.State(), fullPath, k);
              if chosen.Some? then matched && c.choice == chosen
              else !matched && c.choice == if old(c.choice).Some? then old(c.choice)
                                           else Fallback(order, byPath.paths, fullPath, k)
    {
      hide BestMatch, Depth, Prefix, TakenArgs, ExactAt, AnyAt, RootResult, LineResult, DecodedArguments;
      assert order[0..] == order;
      for i := 0 to |order|
        invariant Chosen(order, byPath.paths, byChain.State(), fullPath, k)
                  == Chosen(order[i..], byPath.paths, byChain.State(), fullPath, k)
        invariant c.choice == if old(c.choice).Some? then old(c.choice)
                              else Fallback(order[..i], byPath.paths, fullPath, k)
      {
        assert order[i..][1..] == order[i + 1..] && order[..i + 1] == order[..i] + [order[i]];
        matched := Ask(order[i], c, fullPath, path, args, k);
        if matched {
          return;
        }
      }
      assert order[..|order|] == order;
      matched := false;
    }

    method Ask(kind: Kind, c: Request, ghost fullPath: string, path: string, args: seq<string>, ghost k: nat)
      returns (matched: bool)
      requires Valid() && Rooted(fullPath) && k <= Depth(fullPath) && path == Prefix(fullPath, k)
               && args == TakenArgs(fullPath, k)
      modifies c
      ensures var chosen := ChosenBy(kind, byPath.paths, byChain.State(), fullPath, k);
              if chosen.Some? then matched && c.choice == chosen
              else !matched && c.choice == if old(c.choice).Some? || kind == ByChain then old(c.choice)
                                           else AnyAt(byPath.paths, path, args)
    {
      hide RootResult, LineResult, BestMatch, ExactAt, AnyAt, DecodedArguments;
      match kind
      case ByPath =>
        var ret := byPath.Match(c, path, args);
        matched := ret == ExactMatch;
      case ByChain =>
        WholePath(fullPath, k);
        var r, decodedArgs := byChain.Match(path, args);
        matched := r.Some?;
        if r.Some? {
          var best := r.value;
          SomeAction(byChain.State(), Split(path[1..]), best);
          c.choice := Some(Choice(Chain(best), decodedArgs, best.captures,
                                  best.actions[|best.actions| - 1].Private()));
        }
    }
  }

  lemma SomeAction(t: Tables, parts: seq<string>, best: Best)
    requires RootResult(t, parts, best) && !best.isNull
    ensures best.actions != []
  {
  }

  /** `QStringView::lastIndexOf('/')` of a path that has one. */
  method LastIndexOf(path: string) returns (pos: nat)
    requires Rooted(path)
    ensures LastSlash(path, pos)
  {
    pos := |path| - 1;
    while path[pos] != '/'
      invariant pos < |path| && forall i :: pos < i < |path| ==> path[i] != '/'
      decreases pos
    {
      pos := pos - 1;
    }
  }

  lemma WholePath(path: string, k: nat)
    requires Rooted(path) && k <= Depth(path)
    ensures Rooted(Prefix(path, k)) && (k == 0 ==> Prefix(path, k) == path)
  {
    JoinSplit(path[1..]);
    assert Parts(path)[..|Parts(path)|] == Parts(path);
  }

  /** Only the root is one character long. */
  lemma AtRoot(path: string, k: nat)
    requires Rooted(path) && k <= Depth(path)
    ensures Rooted(Prefix(path, k)) && (|Prefix(path, k)| == 1 <==> k == Depth(path))
  {
    var parts := Parts(path);
    if k < |parts| && Join(parts[..|parts| - k]) == "" {
      HeadOnly(parts[..|parts| - k]);
    }
  }

  predicate LastSlash(path: string, pos: nat) {
    pos < |path| && path[pos] == '/' && forall i :: pos < i < |path| ==> path[i] != '/'
  }

  /** Cutting at the last slash takes one part off. */
  lemma TakenOff(path: string, k: nat, pos: nat)
    requires Rooted(path) && k < Depth(path) && LastSlash(Prefix(path, k), pos)
    ensures TakenArgs(path, k + 1) == [Prefix(path, k)[pos + 1..]] + TakenArgs(path, k)
    ensures Prefix(path, k + 1) == if pos == 0 then Prefix(path, k)[..1] else Prefix(path, k)[..pos]
  {
    hide Join, Split, LastSlash;
    var parts := Parts(path);
    var m := |parts| - k;
    var last := parts[m - 1];
    CutBefore(parts, m);
    LastPart(parts[..m], last);
    OnlyCut(if m > 1 then "/" + Join(parts[..m - 1]) else "", last, pos);
  }

  lemma CutBefore(parts: seq<string>, m: nat)
    requires 0 < m <= |parts|
    ensures parts[..m][..m - 1] == parts[..m - 1] && parts[m - 1..] == [parts[m - 1]] + parts[m..]
  {
  }

  lemma LastPart(parts: seq<string>, last: string)
    requires parts != [] && last == parts[|parts| - 1]
    ensures "/" + Join(parts) == (if |parts| > 1 then "/" + Join(parts[..|parts| - 1]) else "") + "/" + last
  {
    hide Join;
    JoinOfOne(last);
    if |parts| > 1 {
      var head := parts[..|parts| - 1];
      assert parts == head + [last];
      JoinConcat(head, [last]);
      SlashInFront(Join(head), last);
    } else {
      assert parts == [last];
      assert "" + "/" + last == "/" + last;
    }
  }

  lemma JoinOfOne(part: string)
    ensures Join([part]) == part
  {
  }

  lemma SlashInFront(head: string, last: string)
    ensures "/" + (head + "/" + last) == "/" + head + "/" + last
  {
  }

  lemma OnlyCut(head: string, last: string, pos: nat)
    requires PlainPart(last) && LastSlash(head + "/" + last, pos)
    ensures pos == |head| && (head + "/" + last)[..pos] == head && (head + "/" + last)[pos + 1..] == last
  {
    var p := head + "/" + last;
    assert p[|head|] == '/';
    assert forall i :: 0 <= i < |last| ==> p[|head| + 1 + i] == last[i];
  }

  lemma TopLevel(order: seq<Kind>, paths: map<string, seq<Action>>, t: Tables, path: string)
    requires Rooted(path)
    ensures path == Prefix(path, 0) && TakenArgs(path, 0) == []
    ensures NoneBefore(order, paths, t, path, 0) && HeldBefore(order, paths, path, 0, None)
  {
    WholePath(path, 0);
  }

  lemma OneLevel(order: seq<Kind>, paths: map<string, seq<Action>>, t: Tables, path: string, k: nat,
                 held: Option<Choice>, choice: Option<Choice>)
    requires Rooted(path) && k <= Depth(path)
    requires NoneBefore(order, paths, t, path, k) && Chosen(order, paths, t, path, k).None?
    requires HeldBefore(order, paths, path, k, held)
    requires choice == if held.Some? then held else Fallback(order, paths, path, k)
    ensures NoneBefore(order, paths, t, path, k + 1) && HeldBefore(order, paths, path, k + 1, choice)
  {
    hide Chosen, Fallback, Depth;
  }

  lemma ChosenFollows(order: seq<Kind>, paths: map<string, seq<Action>>, t: Tables, path: string, k: nat,
                      choice: Option<Choice>)
    requires Rooted(path) && k <= Depth(path) && NoneBefore(order, paths, t, path, k)
    requires choice == Chosen(order, paths, t, path, k) && choice.Some?
    ensures Rule(order, paths, t, path, choice)
  {
    hide Chosen, Fallback, Depth;
  }

  lemma NothingChosen(order: seq<Kind>, paths: map<string, seq<Action>>, t: Tables, path: string,
                      choice: Option<Choice>)
    requires Rooted(path) && NoneBefore(order, paths, t, path, Depth(path) + 1)
    requires HeldBefore(order, paths, path, Depth(path) + 1, choice)
    ensures Rule(order, paths, t, path, choice)
  {
    hide Chosen, Fallback, Depth;
  }
}
