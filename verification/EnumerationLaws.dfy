/** The enumeration from the credential sets of the request: five laws that determine it. */
module EnumerationLaws {
  import opened Bytes
  import opened Wrappers
  import opened Sequences
  import opened DcqlPath
  import opened DcqlQuery
  import opened DcqlEval
  import opened Odometer
  import opened Products
  import opened Combinations
  import opened CombinationFacts
  import opened CombinationRepeats

  /** The same evaluation of a request with other credential sets. */
  function WithSets(result: QueryResult, sets: seq<CredentialSetQuery>): QueryResult {
    result.(credentialSets := Some(sets))
  }

  /** The ways of an option, as whole combinations with these purposes. */
  ghost function Alone(ways: seq<seq<Member>>, purposes: seq<Json>): seq<Combination> {
    seq(|ways|, i requires 0 <= i < |ways| => Combination(ways[i], purposes))
  }

  /** Every pair, the first slowest: the members of both and the purposes of both. */
  ghost function Together(xs: seq<Combination>, ys: seq<Combination>): seq<Combination> {
    if xs == [] then []
    else
      seq(|ys|, j requires 0 <= j < |ys| =>
        Combination(xs[0].members + ys[j].members, xs[0].purposes + ys[j].purposes))
      + Together(xs[1..], ys)
  }

  // ---- the groups do not look at the sets ------------------------------------------------

  lemma {:induction false} SameWays(a: QueryResult, b: QueryResult, option: seq<Text>)
    requires a.matches == b.matches
    ensures WheelsOf(a, option) == WheelsOf(b, option) && OptionWays(a, option) == OptionWays(b, option)
    ensures Satisfied(a, option) == Satisfied(b, option)
  {
    if option == [] {
    } else {
      SameWays(a, b, option[1..]);
    }
    assert forall id :: a.Find(id) == b.Find(id);
  }

  lemma {:induction false} SameWaysOf(a: QueryResult, b: QueryResult, options: seq<seq<Text>>)
    requires a.matches == b.matches
    ensures WaysOf(a, options) == WaysOf(b, options) && SatisfiedOptions(a, options) == SatisfiedOptions(b, options)
  {
    if options == [] {
    } else {
      SameWays(a, b, options[0]);
      SameWaysOf(a, b, options[1..]);
    }
  }

  lemma {:induction false} SameFlatWays(a: QueryResult, b: QueryResult, groups: seq<Group>)
    requires a.matches == b.matches
    ensures FlatWays(a, groups) == FlatWays(b, groups)
  {
    if groups == [] {
    } else {
      SameWaysOf(a, b, groups[0].options);
      SameFlatWays(a, b, groups[1..]);
    }
  }

  lemma {:induction false} SameGroups(a: QueryResult, b: QueryResult, sets: seq<CredentialSetQuery>)
    requires a.matches == b.matches
    ensures RequiredGroups(a, sets) == RequiredGroups(b, sets)
  {
    if sets == [] {
    } else {
      SameWaysOf(a, b, sets[0].options);
      SameGroups(a, b, sets[1..]);
    }
  }

  lemma {:induction false} GroupsAppend(result: QueryResult, a: seq<CredentialSetQuery>, b: seq<CredentialSetQuery>)
    ensures RequiredGroups(result, a + b) == RequiredGroups(result, a) + RequiredGroups(result, b)
  {
    if a == [] {
      assert a + b == b;
    } else {
      assert (a + b)[1..] == a[1..] + b;
      GroupsAppend(result, a[1..], b);
    }
  }

  lemma GroupsWithSets(result: QueryResult, sets: seq<CredentialSetQuery>)
    ensures Groups(WithSets(result, sets)) == RequiredGroups(result, sets)
  {
    SameGroups(result, WithSets(result, sets), sets);
  }

  /** The enumeration of some sets, member by member. */
  lemma EnumerationIs(result: QueryResult, sets: seq<CredentialSetQuery>)
    requires result.satisfiable
    ensures var groups := RequiredGroups(result, sets);
      Enumeration(WithSets(result, sets))
      == if groups == [] then [] else Alone(FlatWays(result, groups), Purposes(groups))
  {
    var other, groups := WithSets(result, sets), RequiredGroups(result, sets);
    GroupsWithSets(result, sets);
    CompletionsWrapped(other, NOTHING, groups);
    SameFlatWays(result, other, groups);
    WrappedNothing(groups, FlatWays(result, groups));
  }

  lemma WrappedNothing(groups: seq<Group>, flat: seq<seq<Member>>)
    ensures Wrapped(NOTHING, groups, flat) == Alone(flat, Purposes(groups))
  {
    assert NOTHING.purposes + Purposes(groups) == Purposes(groups);
    forall i | 0 <= i < |flat| ensures NOTHING.members + flat[i] == flat[i] {
    }
  }

  // ---- the laws --------------------------------------------------------------------------

  predicate SomeRequired(sets: seq<CredentialSetQuery>) {
    exists s :: s in sets && s.required
  }

  lemma {:induction false} GroupsIffRequired(result: QueryResult, sets: seq<CredentialSetQuery>)
    ensures RequiredGroups(result, sets) == [] <==> !SomeRequired(sets)
  {
    if sets == [] {
    } else {
      GroupsIffRequired(result, sets[1..]);
      assert forall s :: s in sets <==> s == sets[0] || s in sets[1..];
    }
  }

  /** Nothing required, nothing listed. */
  lemma NothingRequired(result: QueryResult, sets: seq<CredentialSetQuery>)
    requires !SomeRequired(sets)
    ensures Enumeration(WithSets(result, sets)) == []
  {
    GroupsWithSets(result, sets);
    GroupsIffRequired(result, sets);
  }

  /** One required set with one option: its ways, in order, with the purpose of the set. */
  lemma OneOptionIsListed(result: QueryResult, option: seq<Text>, purpose: Option<Json>)
    requires result.satisfiable
    ensures Enumeration(WithSets(result, [CredentialSetQuery([option], true, purpose)]))
         == Alone(OptionWays(result, option), match purpose case None => [] case Some(text) => [text])
  {
    OneSetIs(result, [option], purpose);
    OneOption(result, option);
  }

  /** The options of one required set, one list after the other. */
  lemma OptionsAreListedInOrder(result: QueryResult, a: seq<seq<Text>>, b: seq<seq<Text>>, purpose: Option<Json>)
    requires result.satisfiable
    ensures Enumeration(WithSets(result, [CredentialSetQuery(a + b, true, purpose)]))
         == Enumeration(WithSets(result, [CredentialSetQuery(a, true, purpose)]))
            + Enumeration(WithSets(result, [CredentialSetQuery(b, true, purpose)]))
  {
    hide Enumeration, WaysOf, Alone, WithSets;
    OneSetIs(result, a, purpose);
    OneSetIs(result, b, purpose);
    OneSetIs(result, a + b, purpose);
    WaysOfAppend(result, a, b);
    AloneAppend(WaysOf(result, a), WaysOf(result, b), match purpose case None => [] case Some(text) => [text]);
  }

  lemma AloneAppend(a: seq<seq<Member>>, b: seq<seq<Member>>, purposes: seq<Json>)
    ensures Alone(a + b, purposes) == Alone(a, purposes) + Alone(b, purposes)
  {
  }

  lemma OneSetIs(result: QueryResult, options: seq<seq<Text>>, purpose: Option<Json>)
    requires result.satisfiable
    ensures Enumeration(WithSets(result, [CredentialSetQuery(options, true, purpose)]))
         == Alone(WaysOf(result, options), match purpose case None => [] case Some(text) => [text])
  {
    hide Enumeration;
    var s := CredentialSetQuery(options, true, purpose);
    EnumerationIs(result, [s]);
    OneGroup(result, s);
    KeptOptionsWays(result, options);
  }

  lemma OneGroup(result: QueryResult, s: CredentialSetQuery)
    requires s.required
    ensures RequiredGroups(result, [s]) == [Group(s.purpose, SatisfiedOptions(result, s.options))]
    ensures FlatWays(result, RequiredGroups(result, [s])) == WaysOf(result, SatisfiedOptions(result, s.options))
    ensures Purposes(RequiredGroups(result, [s])) == match s.purpose case None => [] case Some(text) => [text]
  {
    var group := Group(s.purpose, SatisfiedOptions(result, s.options));
    assert [s][1..] == [] && RequiredGroups(result, [s]) == [group] + RequiredGroups(result, []) == [group];
    assert [group][1..] == [];
    CrossNone(WaysOf(result, group.options));
    assert Purposes([group]) == PurposeList(s.purpose) + Purposes([]);
  }

  /** An option that is not satisfied has no ways, so leaving it out changes nothing. */
  lemma {:induction false} KeptOptionsWays(result: QueryResult, options: seq<seq<Text>>)
    ensures WaysOf(result, SatisfiedOptions(result, options)) == WaysOf(result, options)
  {
    if options == [] {
    } else {
      KeptOptionsWays(result, options[1..]);
      UnsatisfiedHasNoWays(result, options[0]);
      var rest := SatisfiedOptions(result, options[1..]);
      if Satisfied(result, options[0]) {
        assert ([options[0]] + rest)[1..] == rest;
      } else {
        assert [] + rest == rest;
      }
    }
  }

  lemma {:induction false} UnsatisfiedHasNoWays(result: QueryResult, option: seq<Text>)
    ensures !Satisfied(result, option) ==> WheelsOf(result, option).None?
  {
    if option == [] {
    } else {
      UnsatisfiedHasNoWays(result, option[1..]);
      assert forall id :: id in option <==> id == option[0] || id in option[1..];
    }
  }

  /** Further sets: every pair, in the order of the sets. */
  lemma SetsAreListedInOrder(result: QueryResult, a: seq<CredentialSetQuery>, b: seq<CredentialSetQuery>)
    requires result.satisfiable && SomeRequired(a) && SomeRequired(b)
    ensures Enumeration(WithSets(result, a + b)) == Together(Enumeration(WithSets(result, a)), Enumeration(WithSets(result, b)))
  {
    var first, second := RequiredGroups(result, a), RequiredGroups(result, b);
    EnumerationIs(result, a);
    EnumerationIs(result, b);
    EnumerationIs(result, a + b);
    GroupsAppend(result, a, b);
    GroupsIffRequired(result, a);
    GroupsIffRequired(result, b);
    FlatWaysAppend(result, first, second);
    PurposesAppend(first, second);
    CrossTogether(FlatWays(result, first), Purposes(first), FlatWays(result, second), Purposes(second));
  }

  /** A set that is not required is skipped wherever it stands. */
  lemma OptionalSetIsSkipped(result: QueryResult, a: seq<CredentialSetQuery>, s: CredentialSetQuery, b: seq<CredentialSetQuery>)
    requires !s.required
    ensures Enumeration(WithSets(result, a + [s] + b)) == Enumeration(WithSets(result, a + b))
  {
    if result.satisfiable {
      hide Enumeration;
      GroupsAppend(result, a, b);
      GroupsAppend(result, a + [s], b);
      GroupsAppend(result, a, [s]);
      assert [s][1..] == [] && RequiredGroups(result, [s]) == [] + RequiredGroups(result, []) == [];
      assert RequiredGroups(result, a) + [] + RequiredGroups(result, b) == RequiredGroups(result, a) + RequiredGroups(result, b);
      EnumerationIs(result, a + [s] + b);
      EnumerationIs(result, a + b);
    }
  }

  /** Without sets every query is asked for, in the order of the request. */
  lemma EveryQueryIsAsked(result: QueryResult)
    requires result.satisfiable && result.credentialSets.None?
    ensures Enumeration(result)
         == Alone(OptionWays(result, seq(|result.matches|, i requires 0 <= i < |result.matches| => result.matches[i].queryId)), [])
  {
    var ids := seq(|result.matches|, i requires 0 <= i < |result.matches| => result.matches[i].queryId);
    var groups := Groups(result);
    assert MatchIds(result.matches) == ids;
    assert groups == [Group(None, [ids])] && groups[1..] == [];
    CompletionsWrapped(result, NOTHING, groups);
    OneOption(result, ids);
    CrossNone(WaysOf(result, [ids]));
    assert Purposes(groups) == [] + Purposes([]) == [];
    WrappedNothing(groups, FlatWays(result, groups));
  }

  // ---- appending groups --------------------------------------------------------------------

  lemma {:induction false} CrossAssociates<T>(xs: seq<seq<T>>, ys: seq<seq<T>>, zs: seq<seq<T>>)
    ensures Cross(Cross(xs, ys), zs) == Cross(xs, Cross(ys, zs))
  {
    if xs == [] {
    } else {
      CrossAssociates(xs[1..], ys, zs);
      CrossAppend(Behind(xs[0], ys), Cross(xs[1..], ys), zs);
      CrossBehind(xs[0], ys, zs);
    }
  }

  lemma {:induction false} CrossBehind<T>(x: seq<T>, ys: seq<seq<T>>, zs: seq<seq<T>>)
    ensures Cross(Behind(x, ys), zs) == Behind(x, Cross(ys, zs))
  {
    if ys == [] {
    } else {
      CrossBehind(x, ys[1..], zs);
      assert Behind(x, ys)[1..] == Behind(x, ys[1..]);
      forall j | 0 <= j < |zs| ensures Behind(x + ys[0], zs)[j] == Behind(x, Behind(ys[0], zs))[j] {
        AppendAssociates(x, ys[0], zs[j]);
      }
      assert Behind(x + ys[0], zs) == Behind(x, Behind(ys[0], zs));
      assert Behind(x, Behind(ys[0], zs) + Cross(ys[1..], zs)) == Behind(x, Behind(ys[0], zs)) + Behind(x, Cross(ys[1..], zs));
    }
  }

  lemma {:induction false} FlatWaysAppend(result: QueryResult, a: seq<Group>, b: seq<Group>)
    ensures FlatWays(result, a + b) == Cross(FlatWays(result, a), FlatWays(result, b))
  {
    if a == [] {
      assert a + b == b;
      assert FlatWays(result, []) == [[]];
      CrossWithNothing(FlatWays(result, b));
    } else {
      assert (a + b)[1..] == a[1..] + b;
      FlatWaysAppend(result, a[1..], b);
      CrossAssociates(GroupWays(result, a[0]), FlatWays(result, a[1..]), FlatWays(result, b));
    }
  }

  lemma CrossWithNothing<T>(ys: seq<seq<T>>)
    ensures Cross([[]], ys) == ys
  {
    var none: seq<seq<T>> := [[]];
    assert none[1..] == [] && Cross(none[1..], ys) == [];
    forall j | 0 <= j < |ys| ensures Behind([], ys)[j] == ys[j] {
      assert [] + ys[j] == ys[j];
    }
    assert Behind([], ys) == ys;
  }

  lemma {:induction false} PurposesAppend(a: seq<Group>, b: seq<Group>)
    ensures Purposes(a + b) == Purposes(a) + Purposes(b)
  {
    if a == [] {
      assert a + b == b;
    } else {
      assert (a + b)[1..] == a[1..] + b;
      PurposesAppend(a[1..], b);
    }
  }

  lemma {:induction false} CrossTogether(xs: seq<seq<Member>>, p: seq<Json>, ys: seq<seq<Member>>, q: seq<Json>)
    ensures Alone(Cross(xs, ys), p + q) == Together(Alone(xs, p), Alone(ys, q))
  {
    if xs == [] {
    } else {
      CrossTogether(xs[1..], p, ys, q);
      assert Alone(xs, p)[1..] == Alone(xs[1..], p);
    }
  }
}
