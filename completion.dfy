/**
 * The loops of `onTabComplete`, shared by both plugin versions: the entity-kind
 * suggestions for `/ms` and the statue-name suggestions for `/msdel`, `/msmove` and
 * `/msadjust`.
 */
module Completion {
  import opened Text

  /**
   * The suggestions for an entity kind, in the order of `EntityType.values()`: the lower-cased
   * name of every living kind that starts with `prefix`.
   */
  function MatchingKinds(kinds: seq<string>, living: set<string>, prefix: string): (r: seq<string>)
    ensures |r| <= |kinds|
    ensures forall i :: 0 <= i < |r| ==> StartsWith(r[i], prefix) && HasNoUpperCase(r[i])
  {
    if |kinds| == 0 then []
    else
      var kind := kinds[|kinds| - 1];
      LowerIsNormal(kind);
      MatchingKinds(kinds[..|kinds| - 1], living, prefix)
        + (if kind in living && StartsWith(Lower(kind), prefix) then [Lower(kind)] else [])
  }

  /** A suggestion is the lower-cased name of a living kind that starts with the prefix, and every such name is suggested. */
  lemma {:induction false} MatchingKindsMembership(kinds: seq<string>, living: set<string>, prefix: string, x: string)
    ensures x in MatchingKinds(kinds, living, prefix) <==>
      exists k :: k in kinds && k in living && x == Lower(k) && StartsWith(x, prefix)
  {
    if |kinds| > 0 {
      var front := kinds[..|kinds| - 1];
      var kind := kinds[|kinds| - 1];
      MatchingKindsMembership(front, living, prefix, x);
      assert kinds == front + [kind];
      if x in MatchingKinds(kinds, living, prefix) && x !in MatchingKinds(front, living, prefix) {
        assert kind in kinds;
      }
    }
  }

  /** The text the `/ms` completer matches kinds against when the last argument is empty: the arguments after the first, space-joined. */
  method JoinArgs(args: seq<string>) returns (joined: string)
    requires |args| >= 1
    ensures joined == JoinWithSpaces(args[1..])
  {
    joined := "";
    for i := 1 to |args|
      invariant joined == JoinWithSpaces(args[1..i])
    {
      if i > 1 {
        joined := joined + " ";
      }
      assert args[1..i + 1][..i - 1] == args[1..i];
      joined := joined + args[i];
    }
    assert args[1..|args|] == args[1..];
  }

  /** The prefix the `/ms` completer uses: the joined arguments when the last one is empty, else the lower-cased last one. */
  function KindPrefix(args: seq<string>): (prefix: string)
    requires |args| >= 2
    ensures args[|args| - 1] != "" ==> |prefix| == |args[|args| - 1]| && HasNoUpperCase(prefix)
    ensures |args| == 2 && args[1] == "" ==> prefix == ""
    ensures |args| >= 3 && args[|args| - 1] == "" ==> |prefix| > 0 && prefix[|prefix| - 1] == ' '
  {
    if args[|args| - 1] == "" then
      if |args| >= 3 then JoinEndsWithSpace(args[1..]); JoinWithSpaces(args[1..]) else JoinWithSpaces(args[1..])
    else
      LowerIsNormal(args[|args| - 1]);
      Lower(args[|args| - 1])
  }

  /** The filtering loop over `EntityType.values()`. */
  method FilterKinds(kinds: seq<string>, living: set<string>, prefix: string) returns (completions: seq<string>)
    ensures completions == MatchingKinds(kinds, living, prefix)
  {
    completions := [];
    for i := 0 to |kinds|
      invariant completions == MatchingKinds(kinds[..i], living, prefix)
    {
      assert kinds[..i + 1][..i] == kinds[..i];
      var name := Lower(kinds[i]);
      if kinds[i] in living && StartsWith(name, prefix) {
        completions := completions + [name];
      }
    }
    assert kinds[..|kinds|] == kinds;
  }

  /** The `/ms` completion for two or more arguments. */
  method CompleteKind(kinds: seq<string>, living: set<string>, args: seq<string>) returns (completions: seq<string>)
    requires |args| >= 2
    ensures completions == MatchingKinds(kinds, living, KindPrefix(args))
  {
    var statueName := JoinArgs(args);
    if args[|args| - 1] == "" {
      completions := FilterKinds(kinds, living, statueName);
    } else {
      var partialName := Lower(args[|args| - 1]);
      completions := FilterKinds(kinds, living, partialName);
    }
  }

  /** With an empty second argument and nothing after it, every living kind is suggested. */
  lemma EmptyKindArgumentSuggestsAll(kinds: seq<string>, living: set<string>, args: seq<string>, k: string)
    requires |args| == 2 && args[1] == ""
    requires k in kinds && k in living
    ensures Lower(k) in MatchingKinds(kinds, living, KindPrefix(args))
  {
    assert args[1..] == [""];
    MatchingKindsMembership(kinds, living, KindPrefix(args), Lower(k));
  }

  /**
   * With three or more arguments of which the last is empty, the prefix ends in a space, so
   * nothing is suggested as long as no kind's name contains a space.
   */
  lemma TrailingEmptyArgumentSuggestsNothing(kinds: seq<string>, living: set<string>, args: seq<string>)
    requires |args| >= 3 && args[|args| - 1] == ""
    requires forall k :: k in kinds ==> ' ' !in k
    ensures MatchingKinds(kinds, living, KindPrefix(args)) == []
  {
    var prefix := KindPrefix(args);
    JoinEndsWithSpace(args[1..]);
    if MatchingKinds(kinds, living, prefix) != [] {
      var x := MatchingKinds(kinds, living, prefix)[0];
      MatchingKindsMembership(kinds, living, prefix, x);
      assert false;
    }
  }

  /** The statue-name loop: every name that starts with `prefix`, each once, in some order of the key set. */
  method MatchingNames(names: set<string>, prefix: string) returns (completions: seq<string>)
    ensures forall x :: x in completions <==> x in names && StartsWith(x, prefix)
    ensures forall i, j :: 0 <= i < j < |completions| ==> completions[i] != completions[j]
  {
    completions := [];
    var rest := names;
    while rest != {}
      invariant rest <= names
      invariant forall x :: x in completions <==> x in names - rest && StartsWith(x, prefix)
      invariant forall i, j :: 0 <= i < j < |completions| ==> completions[i] != completions[j]
      decreases rest
    {
      var statueName :| statueName in rest;
      if StartsWith(statueName, prefix) {
        completions := completions + [statueName];
      }
      rest := rest - {statueName};
    }
  }

  /** `completions.addAll(keySet)`: every name, each once. */
  method AllNames(names: set<string>) returns (completions: seq<string>)
    ensures forall x :: x in completions <==> x in names
    ensures forall i, j :: 0 <= i < j < |completions| ==> completions[i] != completions[j]
    ensures |completions| == |names|
  {
    completions := [];
    var rest := names;
    while rest != {}
      invariant rest <= names
      invariant forall x :: x in completions <==> x in names - rest
      invariant forall i, j :: 0 <= i < j < |completions| ==> completions[i] != completions[j]
      invariant |completions| == |names - rest|
      decreases rest
    {
      var statueName :| statueName in rest;
      assert names - (rest - {statueName}) == (names - rest) + {statueName};
      completions := completions + [statueName];
      rest := rest - {statueName};
    }
  }
}
