/** What the rule of path dispatch comes to, told from the registered actions and the matching chains. */
module PathChoice {
  import opened Basics
  import opened Slashes
  import opened ChainedRouting
  import opened Arguments
  import opened PathDispatch

  /** A choice names an action registered under a prefix of the path that takes just the parts behind it,
      or any number of them; or a chain that matches the whole path. */
  lemma ChoiceFits(order: seq<Kind>, paths: map<string, seq<Action>>, t: Tables, path: string, c: Choice)
    requires Rooted(path) && Rule(order, paths, t, path, Some(c))
    ensures ChainFits(t, path, c) || exists k :: 0 <= k <= Depth(path) && ActionFits(paths, path, k, c)
  {
    hide Chosen, Depth, Fallback, ActionFits, ChainFits;
    if exists k :: 0 <= k <= Depth(path) && Chosen(order, paths, t, path, k).Some? {
      var k :| 0 <= k <= Depth(path) && Chosen(order, paths, t, path, k) == Some(c);
      ChosenFits(order, paths, t, path, k, c);
    } else {
      var k :| 0 <= k <= Depth(path) && Fallback(order, paths, path, k) == Some(c);
      FallbackFits(order, paths, path, k, c);
    }
  }

  ghost predicate ActionFits(paths: map<string, seq<Action>>, path: string, k: nat, c: Choice)
    requires Rooted(path) && k <= Depth(path)
  {
    && c.target.Single? && c.matched == Prefix(path, k) && c.arguments == TakenArgs(path, k) && c.captures == []
    && c.matched in paths && c.target.action in paths[c.matched]
    && c.target.action.numberOfArgs in {k as int, -1}
  }

  ghost predicate ChainFits(t: Tables, path: string, c: Choice)
    requires Rooted(path)
  {
    && c.target.Chain? && c.target.best.actions != [] && c.captures == c.target.best.captures
    && Matches(t, 0, "/", Parts(path), c.target.best.actions, c.captures, c.target.best.parts)
    && c.arguments == DecodedArguments(c.target.best.parts)
    && c.matched == c.target.best.actions[|c.target.best.actions| - 1].Private()
  }

  lemma {:induction false} ChosenFits(order: seq<Kind>, paths: map<string, seq<Action>>, t: Tables, path: string,
                                      k: nat, c: Choice)
    requires Rooted(path) && k <= Depth(path) && Chosen(order, paths, t, path, k) == Some(c)
    ensures ChainFits(t, path, c) || ActionFits(paths, path, k, c)
    decreases |order|
  {
    hide BestMatch, Depth, Prefix, TakenArgs, Matches, DecodedArguments;
    if ChosenBy(order[0], paths, t, path, k).None? {
      ChosenFits(order[1..], paths, t, path, k, c);
    } else {
      SearchIsExact(t, 0, "/", Parts(path));
    }
  }

  /** Where some chain matches, one that does is chosen, unless an action of the whole path without
      arguments is. */
  lemma ChainWins(order: seq<Kind>, paths: map<string, seq<Action>>, t: Tables, path: string, choice: Option<Choice>)
    requires Rooted(path) && ByChain in order && !NoChain(t, path) && Rule(order, paths, t, path, choice)
    ensures choice.Some? && (ChainFits(t, path, choice.value) || ActionFits(paths, path, 0, choice.value))
    ensures NoneTakes(paths, path, 0) ==> ChainFits(t, path, choice.value)
  {
    hide Chosen, Depth, Rule, NoneTakes, NoChain, Matches, Prefix, TakenArgs, DecodedArguments;
    ChosenWhole(order, paths, t, path);
    ChosenAtOnce(order, paths, t, path, choice);
    ChosenFits(order, paths, t, path, 0, choice.value);
  }

  lemma ChosenAtOnce(order: seq<Kind>, paths: map<string, seq<Action>>, t: Tables, path: string,
                     choice: Option<Choice>)
    requires Rooted(path) && Rule(order, paths, t, path, choice) && Chosen(order, paths, t, path, 0).Some?
    ensures choice == Chosen(order, paths, t, path, 0)
  {
    hide Chosen, Depth, Fallback;
    var m :| 0 <= m <= Depth(path) && NoneBefore(order, paths, t, path, m)
             && choice == Chosen(order, paths, t, path, m) && choice.Some?;
  }

  lemma {:induction false} ChosenWhole(order: seq<Kind>, paths: map<string, seq<Action>>, t: Tables, path: string)
    requires Rooted(path) && ByChain in order && !NoChain(t, path)
    ensures var chosen := Chosen(order, paths, t, path, 0);
            chosen.Some? && (NoneTakes(paths, path, 0) ==> chosen.value.target.Chain?)
    decreases |order|
  {
    hide BestMatch, Depth, Prefix, TakenArgs, NoChain, ExactAt, NoneTakes, DecodedArguments;
    if NoneTakes(paths, path, 0) {
      NothingTakes(paths, path, 0);
    }
    if order[0] == ByChain {
      SomeChain(t, path);
    } else {
      ChosenWhole(order[1..], paths, t, path);
    }
  }

  lemma SomeChain(t: Tables, path: string)
    requires Rooted(path) && !NoChain(t, path)
    ensures var b := BestMatch(t, 0, "/", Parts(path)); !b.isNull && b.actions != []
  {
    hide BestMatch, Matches;
    var chain, captures, rest :| Matches(t, 0, "/", Parts(path), chain, captures, rest);
    Found(t, 0, "/", Parts(path), chain, captures, rest);
  }

  lemma Found(t: Tables, req: int, parent: string, parts: seq<string>, chain: seq<Action>, captures: seq<string>,
              rest: seq<string>)
    requires Matches(t, req, parent, parts, chain, captures, rest)
    ensures var b := BestMatch(t, req, parent, parts); !b.isNull && b.actions != []
  {
    hide BestMatch, MatchesAfter;
    SearchIsExact(t, req, parent, parts);
  }

  lemma FallbackFits(order: seq<Kind>, paths: map<string, seq<Action>>, path: string, k: nat, c: Choice)
    requires Rooted(path) && k <= Depth(path) && Fallback(order, paths, path, k) == Some(c)
    ensures ActionFits(paths, path, k, c)
  {
    hide Depth, Prefix, TakenArgs;
  }

  /** No action of a prefix with k parts behind it takes just k arguments. */
  ghost predicate NoneTakes(paths: map<string, seq<Action>>, path: string, k: nat)
    requires Rooted(path) && k <= Depth(path)
  {
    Prefix(path, k) in paths ==> forall a <- paths[Prefix(path, k)] :: a.numberOfArgs != k
  }

  ghost predicate NoneTakesAny(paths: map<string, seq<Action>>, path: string, k: nat)
    requires Rooted(path) && k <= Depth(path)
  {
    Prefix(path, k) in paths ==> forall a <- paths[Prefix(path, k)] :: a.numberOfArgs != -1
  }

  ghost predicate NoChain(t: Tables, path: string)
    requires Rooted(path)
  {
    forall chain, captures, rest :: !Matches(t, 0, "/", Parts(path), chain, captures, rest)
  }

  /** Where no chain matches, the action of the longest prefix that takes just the parts behind it is chosen. */
  lemma ExactWins(order: seq<Kind>, paths: map<string, seq<Action>>, t: Tables, path: string, k: nat, a: Action,
                  choice: Option<Choice>)
    requires Rooted(path) && k <= Depth(path) && ByPath in order && NoChain(t, path)
    requires Rule(order, paths, t, path, choice)
    requires Prefix(path, k) in paths && a in paths[Prefix(path, k)] && a.numberOfArgs == k
    requires Ordered(paths[Prefix(path, k)]) && forall j :: 0 <= j < k ==> NoneTakes(paths, path, j)
    ensures choice == Some(Choice(Single(a), TakenArgs(path, k), [], Prefix(path, k)))
  {
    hide Chosen, Depth, Fallback, ExactAt, Ordered, NoneTakes, NoChain, Prefix, TakenArgs;
    forall j | 0 <= j <= k
      ensures Chosen(order, paths, t, path, j) == ExactAt(paths, Prefix(path, j), TakenArgs(path, j))
    {
      ChosenExact(order, paths, t, path, j);
    }
    forall j | 0 <= j < k
      ensures Chosen(order, paths, t, path, j).None?
    {
      NothingTakes(paths, path, j);
    }
    OnlyOne(paths, path, k, a);
    assert Chosen(order, paths, t, path, k).Some?;
    var m :| 0 <= m <= Depth(path) && NoneBefore(order, paths, t, path, m)
             && choice == Chosen(order, paths, t, path, m) && choice.Some?;
  }

  lemma {:induction false} ChosenExact(order: seq<Kind>, paths: map<string, seq<Action>>, t: Tables, path: string,
                                       k: nat)
    requires Rooted(path) && k <= Depth(path) && NoChain(t, path)
    ensures Chosen(order, paths, t, path, k)
            == if ByPath in order then ExactAt(paths, Prefix(path, k), TakenArgs(path, k)) else None
    decreases |order|
  {
    hide BestMatch, Depth, Prefix, TakenArgs, Matches, ExactAt;
    SearchIsExact(t, 0, "/", Parts(path));
    if order != [] {
      ChosenExact(order[1..], paths, t, path, k);
    }
  }

  lemma NothingTakes(paths: map<string, seq<Action>>, path: string, k: nat)
    requires Rooted(path) && k <= Depth(path) && NoneTakes(paths, path, k)
    ensures ExactAt(paths, Prefix(path, k), TakenArgs(path, k)).None?
  {
    hide Prefix, TakenArgs;
  }

  lemma OnlyOne(paths: map<string, seq<Action>>, path: string, k: nat, a: Action)
    requires Rooted(path) && k <= Depth(path) && Prefix(path, k) in paths && a in paths[Prefix(path, k)]
    requires Ordered(paths[Prefix(path, k)])
    ensures a.numberOfArgs == k ==>
              ExactAt(paths, Prefix(path, k), TakenArgs(path, k))
              == Some(Choice(Single(a), TakenArgs(path, k), [], Prefix(path, k)))
    ensures a.numberOfArgs == -1 ==>
              AnyAt(paths, Prefix(path, k), TakenArgs(path, k))
              == Some(Choice(Single(a), TakenArgs(path, k), [], Prefix(path, k)))
  {
    hide Prefix, TakenArgs;
    var actions := paths[Prefix(path, k)];
    var i :| 0 <= i < |actions| && actions[i] == a;
  }

  /** Where no chain matches and no action takes just the parts behind its prefix, the action of the longest
      prefix that takes any number of arguments is chosen. */
  lemma AnyWins(order: seq<Kind>, paths: map<string, seq<Action>>, t: Tables, path: string, k: nat, a: Action,
                choice: Option<Choice>)
    requires Rooted(path) && k <= Depth(path) && ByPath in order && NoChain(t, path)
    requires Rule(order, paths, t, path, choice)
    requires Prefix(path, k) in paths && a in paths[Prefix(path, k)] && a.numberOfArgs == -1
    requires Ordered(paths[Prefix(path, k)]) && forall j :: 0 <= j <= Depth(path) ==> NoneTakes(paths, path, j)
    requires forall j :: 0 <= j < k ==> NoneTakesAny(paths, path, j)
    ensures choice == Some(Choice(Single(a), TakenArgs(path, k), [], Prefix(path, k)))
  {
    hide Chosen, Depth, ExactAt, AnyAt, Ordered, NoneTakes, NoneTakesAny, NoChain, Prefix, TakenArgs;
    forall j | 0 <= j <= Depth(path)
      ensures Chosen(order, paths, t, path, j).None?
    {
      ChosenExact(order, paths, t, path, j);
      NothingTakes(paths, path, j);
    }
    forall j | 0 <= j < k
      ensures Fallback(order, paths, path, j).None?
    {
      NothingTakesAny(paths, path, j);
    }
    OnlyOne(paths, path, k, a);
    assert Fallback(order, paths, path, k).Some?;
    var m :| 0 <= m <= Depth(path) && NoFallbackBefore(order, paths, path, m)
             && choice == Fallback(order, paths, path, m) && choice.Some?;
  }

  lemma NothingTakesAny(paths: map<string, seq<Action>>, path: string, k: nat)
    requires Rooted(path) && k <= Depth(path) && NoneTakesAny(paths, path, k)
    ensures AnyAt(paths, Prefix(path, k), TakenArgs(path, k)).None?
  {
    hide Prefix, TakenArgs;
  }
}
