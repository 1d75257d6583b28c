/** When the enumeration is non-empty, and what the count of skipped combinations is worth. */
module CombinationCounts {
  import opened Bytes
  import opened Wrappers
  import opened Sequences
  import opened DcqlQuery
  import opened DcqlEval
  import opened Odometer
  import opened Products
  import opened Combinations

  /** The combinations that groups of these widths make of one partial combination. */
  ghost function Ways(widths: seq<nat>): nat {
    if widths == [] then 1 else widths[0] * Ways(widths[1..])
  }

  lemma WaysOfGroups(result: QueryResult, groups: seq<Group>)
    requires groups != []
    ensures Ways(Widths(result, groups)) == Ways(Widths(result, groups[1..])) * |GroupWays(result, groups[0])|
  {
    hide Ways;
    var widths := Widths(result, groups);
    var later := Widths(result, groups[1..]);
    assert widths[1..] == later;
    FirstWidth(widths);
    assert widths[0] == |GroupWays(result, groups[0])|;
  }

  lemma FirstWidth(widths: seq<nat>)
    requires widths != []
    ensures Ways(widths) == Ways(widths[1..]) * widths[0]
  {
  }

  lemma {:induction false} CompletionsCount(result: QueryResult, partial: Combination, groups: seq<Group>)
    ensures |Completions(result, partial, groups)| == Ways(Widths(result, groups))
    decreases |groups|, 0, 0
  {
    if groups == [] {
    } else {
      var ways := GroupWays(result, groups[0]);
      var extended := Extend(partial, ways, groups[0].purpose);
      AllCompletionsCount(result, extended, groups[1..]);
      WaysOfGroups(result, groups);
      assert |extended| == |ways|;
    }
  }

  lemma {:induction false} AllCompletionsCount(result: QueryResult, partials: seq<Combination>, groups: seq<Group>)
    ensures |AllCompletions(result, partials, groups)| == Ways(Widths(result, groups)) * |partials|
    decreases |groups|, 1, |partials|
  {
    if partials == [] {
    } else {
      CompletionsCount(result, partials[0], groups);
      AllCompletionsCount(result, partials[1..], groups);
      MulNext(Ways(Widths(result, groups)), |partials| - 1);
    }
  }

  ghost predicate Positive(widths: seq<nat>) {
    forall i :: 0 <= i < |widths| ==> widths[i] >= 1
  }

  lemma {:induction false} WaysPositive(widths: seq<nat>)
    requires Positive(widths)
    ensures Ways(widths) >= 1
    ensures Ways(widths) == 1 <==> forall i :: 0 <= i < |widths| ==> widths[i] == 1
  {
    if widths == [] {
    } else {
      WaysPositive(widths[1..]);
      MulMonotonic(widths[0], 1, Ways(widths[1..]));
      MulMonotonic(Ways(widths[1..]), 1, widths[0]);
      if widths[0] == 1 && Ways(widths[1..]) == 1 {
        assert forall i :: 1 <= i < |widths| ==> widths[i] == widths[1..][i - 1];
      }
      assert forall i :: 0 <= i < |widths[1..]| ==> widths[1..][i] == widths[i + 1];
    }
  }

  // ---- the count against the truth -----------------------------------------------

  /**
   * Every group entered with more ways behind it than the limit keeps adds exactly one way. Then cutting
   * early loses exactly what is counted as skipped.
   */
  ghost predicate LateGroupsAreSingle(widths: seq<nat>, partials: nat, limit: nat) {
    forall j :: 0 < j < |widths| && Ways(widths[..j]) * partials > limit ==> widths[j] == 1
  }

  lemma WaysPrefix(widths: seq<nat>, j: nat)
    requires 0 < j <= |widths|
    ensures Ways(widths[..j]) == widths[0] * Ways(widths[1..][..j - 1])
  {
    assert widths[..j][1..] == widths[1..][..j - 1];
  }

  lemma MulSwap(a: nat, b: nat, c: nat)
    ensures (a * b) * c == b * (a * c)
  {
  }

  lemma LateGroupsStep(widths: seq<nat>, partials: nat, limit: nat)
    requires |widths| > 1 && widths[0] * partials <= limit
    ensures LateGroupsAreSingle(widths, partials, limit)
       <==> LateGroupsAreSingle(widths[1..], widths[0] * partials, limit)
  {
    var tail := widths[1..];
    forall j | 0 <= j < |tail|
      ensures Ways(widths[..j + 1]) * partials == Ways(tail[..j]) * (widths[0] * partials)
    {
      WaysPrefix(widths, j + 1);
      MulSwap(widths[0], Ways(tail[..j]), partials);
    }
    assert Ways(tail[..0]) == 1;
    if LateGroupsAreSingle(widths, partials, limit) {
      forall j | 0 < j < |tail| && Ways(tail[..j]) * (widths[0] * partials) > limit ensures tail[j] == 1 {
        assert Ways(widths[..j + 1]) * partials > limit;
        assert widths[j + 1] == 1;
      }
    }
    if LateGroupsAreSingle(tail, widths[0] * partials, limit) {
      forall j | 0 < j < |widths| && Ways(widths[..j]) * partials > limit ensures widths[j] == 1 {
        assert Ways(tail[..j - 1]) * (widths[0] * partials) > limit;
        assert tail[j - 1] == 1;
      }
    }
  }

  lemma LateGroupsCut(widths: seq<nat>, partials: nat, limit: nat)
    requires widths != [] && Positive(widths) && widths[0] * partials > limit
    ensures LateGroupsAreSingle(widths, partials, limit) <==> Ways(widths[1..]) == 1
  {
    var tail := widths[1..];
    WaysPositive(tail);
    forall j | 0 < j < |widths| ensures Ways(widths[..j]) * partials > limit {
      WaysPrefix(widths, j);
      WaysPositive(tail[..j - 1]);
      MulSwap(widths[0], Ways(tail[..j - 1]), partials);
      MulMonotonic(widths[0] * partials, 1, Ways(tail[..j - 1]));
    }
    if Ways(tail) == 1 {
      assert forall j :: 0 < j < |widths| ==> widths[j] == tail[j - 1];
    }
    if LateGroupsAreSingle(widths, partials, limit) {
      assert forall j :: 0 <= j < |tail| ==> tail[j] == widths[j + 1];
    }
  }

  lemma CutLoss(ways: nat, n: nat, limit: nat)
    requires ways >= 1 && n > limit
    ensures ways * limit + (n - limit) <= ways * n
    ensures ways * limit + (n - limit) == ways * n <==> ways == 1
    ensures ways * limit >= limit && ways * n >= limit
  {
    MulMonotonic(n - limit, 1, ways);
    MulMonotonic(limit, 1, ways);
    MulMonotonic(ways, limit, n);
    assert ways * n == ways * limit + ways * (n - limit);
    if ways > 1 {
      MulMonotonic(n - limit, 2, ways);
    }
  }

  lemma {:induction false} SkipsOfOnes(widths: seq<nat>, partials: nat, limit: nat)
    requires forall i :: 0 <= i < |widths| ==> widths[i] == 1
    requires partials <= limit
    ensures Skips(widths, partials, limit) == 0
  {
    if widths == [] {
    } else {
      assert forall i :: 0 <= i < |widths[1..]| ==> widths[1..][i] == widths[i + 1];
      SkipsOfOnes(widths[1..], partials, limit);
    }
  }

  /** Returned and skipped never exceed the truth, and meet it exactly when every late group is single. */
  lemma {:induction false} SkipsAgainstTruth(widths: seq<nat>, partials: nat, limit: nat)
    requires widths != [] && Positive(widths)
    ensures Min(limit, Ways(widths) * partials) + Skips(widths, partials, limit) <= Ways(widths) * partials
    ensures Min(limit, Ways(widths) * partials) + Skips(widths, partials, limit) == Ways(widths) * partials
       <==> partials == 0 || LateGroupsAreSingle(widths, partials, limit)
  {
    var tail, n := widths[1..], widths[0] * partials;
    assert Ways(widths) * partials == Ways(tail) * n by {
      MulSwap(widths[0], Ways(tail), partials);
    }
    WaysPositive(tail);
    if partials == 0 {
    } else if n > limit {
      LateGroupsCut(widths, partials, limit);
      CutLoss(Ways(tail), n, limit);
      if tail != [] {
        SkipsAgainstTruth(tail, limit, limit);
        if Ways(tail) == 1 {
          SkipsOfOnes(tail, limit, limit);
        }
      }
    } else {
      MulMonotonic(partials, 1, widths[0]);
      if tail != [] {
        SkipsAgainstTruth(tail, n, limit);
        LateGroupsStep(widths, partials, limit);
      }
    }
  }

  // ---- when there is anything to offer ---------------------------------------------

  lemma {:induction false} SatisfiedHasWays(result: QueryResult, option: seq<Text>)
    ensures Satisfied(result, option) <==> OptionWays(result, option) != []
  {
    if option == [] {
    } else {
      SatisfiedHasWays(result, option[1..]);
      assert forall id :: id in option <==> id == option[0] || id in option[1..];
      SatisfiedHasWheels(result, option);
    }
    if WheelsOf(result, option).Some? {
      WheelsTurn(result, option);
      ProductLength(WheelsOf(result, option).value);
      TotalIsPositive(WheelsOf(result, option).value);
    }
  }

  lemma {:induction false} SatisfiedHasWheels(result: QueryResult, option: seq<Text>)
    ensures Satisfied(result, option) <==> WheelsOf(result, option).Some?
  {
    if option == [] {
    } else {
      SatisfiedHasWheels(result, option[1..]);
      assert forall id :: id in option <==> id == option[0] || id in option[1..];
    }
  }

  lemma {:induction false} SomeOptionHasWays(result: QueryResult, options: seq<seq<Text>>)
    ensures WaysOf(result, options) != [] <==> exists option :: option in options && Satisfied(result, option)
  {
    if options == [] {
    } else {
      SatisfiedHasWays(result, options[0]);
      SomeOptionHasWays(result, options[1..]);
    }
  }

  lemma {:induction false} SatisfiedOptionsKept(result: QueryResult, options: seq<seq<Text>>, option: seq<Text>)
    ensures option in SatisfiedOptions(result, options) <==> option in options && Satisfied(result, option)
  {
    if options == [] {
    } else {
      SatisfiedOptionsKept(result, options[1..], option);
    }
  }

  /** With unique ids, an option is met exactly when the lookup by id finds all of it satisfied. */
  lemma MetIsSatisfied(result: QueryResult, option: seq<Text>)
    requires UniqueMatches(result.matches)
    ensures OptionMet(result.matches, option) <==> Satisfied(result, option)
  {
    forall id | id in option
      ensures (exists m :: m in result.matches && m.queryId == id && m.IsSatisfied())
         <==> (result.Find(id).Some? && result.Find(id).value.IsSatisfied())
    {
      FindIsSatisfiedOne(result.matches, id);
    }
  }

  /** Every required set has an option whose ids the lookup finds satisfied. */
  ghost predicate RequiredSetsFound(result: QueryResult, sets: seq<CredentialSetQuery>) {
    forall s :: s in sets && s.required ==> exists option :: option in s.options && Satisfied(result, option)
  }

  lemma {:induction false} RequiredGroupsFound(result: QueryResult, sets: seq<CredentialSetQuery>)
    ensures (forall g :: g in RequiredGroups(result, sets) ==> GroupWays(result, g) != [])
       <==> RequiredSetsFound(result, sets)
  {
    if sets == [] {
    } else {
      RequiredGroupsFound(result, sets[1..]);
      var first, rest := sets[0], RequiredGroups(result, sets[1..]);
      assert forall s :: s in sets <==> s == first || s in sets[1..];
      if first.required {
        var group := Group(first.purpose, SatisfiedOptions(result, first.options));
        SomeOptionHasWays(result, group.options);
        forall option
          ensures option in group.options && Satisfied(result, option)
             <==> option in first.options && Satisfied(result, option)
        {
          SatisfiedOptionsKept(result, first.options, option);
        }
        assert GroupWays(result, group) != []
          <==> exists option :: option in first.options && Satisfied(result, option);
        assert RequiredGroups(result, sets) == [group] + rest;
        assert forall g :: g in RequiredGroups(result, sets) <==> g == group || g in rest;
      }
    }
  }

  lemma RequiredGroupsHaveWays(result: QueryResult, sets: seq<CredentialSetQuery>)
    requires UniqueMatches(result.matches)
    ensures (forall g :: g in RequiredGroups(result, sets) ==> GroupWays(result, g) != [])
       <==> RequiredSetsMet(result.matches, sets)
  {
    RequiredGroupsFound(result, sets);
    forall option ensures OptionMet(result.matches, option) <==> Satisfied(result, option) {
      MetIsSatisfied(result, option);
    }
  }

  lemma AllQueriesHaveWays(result: QueryResult)
    requires forall m :: m in result.matches ==> m.IsSatisfied()
    ensures WaysOf(result, [MatchIds(result.matches)]) != []
  {
    var option := MatchIds(result.matches);
    forall id | id in option ensures result.Find(id).Some? && result.Find(id).value.IsSatisfied() {
      var i :| 0 <= i < |option| && option[i] == id;
      assert result.matches[i].queryId == id;
      FindIsFirst(result.matches, id);
    }
    assert option in [option] && Satisfied(result, option);
    SomeOptionHasWays(result, [option]);
  }

  /** A satisfiable result of a query with usable ids can answer every required group. */
  lemma GroupsHaveWays(query: Query, held: seq<Credential>, policy: Policy)
    requires UsableIds(query.credentials)
    ensures var result := Execute(query, held, policy);
      result.satisfiable ==> Positive(Widths(result, Groups(result)))
  {
    var result := Execute(query, held, policy);
    ExecuteKeepsIdsUnique(query, held, policy);
    if result.satisfiable {
      match query.credentialSets
      case None => AllQueriesHaveWays(result);
      case Some(sets) => RequiredGroupsHaveWays(result, sets);
      forall i | 0 <= i < |Groups(result)| ensures Widths(result, Groups(result))[i] >= 1 {
        assert Groups(result)[i] in Groups(result);
      }
    }
  }

  /**
   * With usable ids, room for one combination and something required, the list is non-empty exactly when the
   * request is satisfiable.
   */
  lemma OffersIffSatisfiable(query: Query, held: seq<Credential>, policy: Policy, limit: nat)
    requires UsableIds(query.credentials) && limit >= 1
    ensures var result := Execute(query, held, policy);
      Take(limit, Enumeration(result)) != [] <==> result.satisfiable && Groups(result) != []
  {
    var result := Execute(query, held, policy);
    GroupsHaveWays(query, held, policy);
    if result.satisfiable && Groups(result) != [] {
      CompletionsCount(result, NOTHING, Groups(result));
      WaysPositive(Widths(result, Groups(result)));
    }
  }

  lemma {:induction false} WaysIsZero(widths: seq<nat>, i: nat)
    requires i < |widths| && widths[i] == 0
    ensures Ways(widths) == 0
  {
    if i == 0 {
      MulMonotonic(Ways(widths[1..]), 0, 0);
    } else {
      WaysIsZero(widths[1..], i - 1);
    }
  }

  /** Whatever every group asks for is found, each id by its first match. */
  ghost predicate AllFound(result: QueryResult) {
    match result.credentialSets
    case None => Satisfied(result, MatchIds(result.matches))
    case Some(sets) => RequiredSetsFound(result, sets)
  }

  lemma GroupsFoundIff(result: QueryResult)
    ensures Positive(Widths(result, Groups(result))) <==> AllFound(result)
  {
    var groups := Groups(result);
    match result.credentialSets
    case None =>
      SomeOptionHasWays(result, [MatchIds(result.matches)]);
      assert MatchIds(result.matches) in [MatchIds(result.matches)];
      assert Widths(result, groups)[0] == |GroupWays(result, groups[0])|;
    case Some(sets) =>
      RequiredGroupsFound(result, sets);
      assert forall i :: 0 <= i < |groups| ==> Widths(result, groups)[i] == |GroupWays(result, groups[i])|;
      if AllFound(result) {
        assert forall i :: 0 <= i < |groups| ==> groups[i] in groups;
      }
      if Positive(Widths(result, groups)) {
        forall g | g in groups ensures GroupWays(result, g) != [] {
          var i :| 0 <= i < |groups| && groups[i] == g;
          assert Widths(result, groups)[i] >= 1;
        }
      }
  }

  /**
   * For any query, usable ids or not: the list is non-empty exactly when the request is satisfiable, something is
   * required, and the first match of every id asked for has a candidate.
   */
  lemma OffersIff(query: Query, held: seq<Credential>, policy: Policy, limit: nat)
    requires limit >= 1
    ensures var result := Execute(query, held, policy);
      Take(limit, Enumeration(result)) != [] <==> result.satisfiable && Groups(result) != [] && AllFound(result)
  {
    var result := Execute(query, held, policy);
    var widths := Widths(result, Groups(result));
    GroupsFoundIff(result);
    CompletionsCount(result, NOTHING, Groups(result));
    if Positive(widths) {
      WaysPositive(widths);
    } else {
      var i: nat :| i < |widths| && widths[i] == 0;
      WaysIsZero(widths, i);
    }
  }

  const PID: Text := Ascii("pid")

  /** One required set naming an id two queries share, of which only the second matches what is held. */
  function SharedIdQuery(): Query {
    var asked := CredentialQuery(PID, [], false, map[], false, [], None);
    Query([asked.(format := PID), asked], Some([CredentialSetQuery([[PID]], true, None)]))
  }

  function SameFormat(query: CredentialQuery, credential: Credential): bool {
    query.format == credential.format
  }

  /** Without unique ids the two can disagree: a satisfiable request with nothing to offer. */
  lemma DuplicateIdsOfferNothing(held: Credential)
    requires held.format == []
    ensures var result := Execute(SharedIdQuery(), [held], SameFormat);
      result.satisfiable && Groups(result) != [] && Enumeration(result) == []
  {
    var asked := SharedIdQuery().credentials[1];
    var result := Execute(SharedIdQuery(), [held], SameFormat);
    assert [held][1..] == [];
    assert Candidates(asked.(format := PID), [held], SameFormat) == [];
    assert Candidates(asked, [held], SameFormat) == [Candidate(held.id, [])];
    var first, second := QueryMatch(PID, [], false), QueryMatch(PID, [Candidate(held.id, [])], false);
    assert result.matches == [first, second];
    assert second in result.matches && second.IsSatisfied();
    var option := [PID];
    assert OptionMet(result.matches, option) by {
      forall id | id in option ensures exists m :: m in result.matches && m.queryId == id && m.IsSatisfied() {
        assert id == PID && second in result.matches;
      }
    }
    var set0 := CredentialSetQuery([option], true, None);
    assert option in set0.options;
    assert result.credentialSets.value == [set0];
    assert result.satisfiable;
    assert result.Find(PID) == Some(first);
    assert PID in option;
    assert !Satisfied(result, option);
    var options := [option];
    assert options[1..] == [];
    assert SatisfiedOptions(result, options) == [];
    assert [set0][1..] == [];
    assert RequiredGroups(result, [set0]) == [Group(None, [])] + RequiredGroups(result, []);
    assert Groups(result) == [Group(None, [])];
    assert Extend(NOTHING, GroupWays(result, Group(None, [])), None) == [];
    assert Groups(result)[1..] == [];
    assert AllCompletions(result, [], []) == [];
  }

  /**
   * For a query with usable ids: what is returned and what is reported dropped together never exceed the true
   * number of combinations. When the report is exact, they meet it if and only if every group entered with
   * more than `limit` ways behind it adds a single way.
   */
  lemma DroppedAgainstTruth(query: Query, held: seq<Credential>, policy: Policy, limit: nat, most: nat, dropped: Dropped)
    requires UsableIds(query.credentials)
    requires var result := Execute(query, held, policy);
      Reports(dropped, SkipsOf(result, limit), Countable(result, limit, most), limit, most)
    ensures var result := Execute(query, held, policy);
      var returned, truth := |Take(limit, Enumeration(result))|, |Enumeration(result)|;
      && returned + dropped.count <= truth
      && (dropped.Exact? ==>
           (returned + dropped.count == truth
            <==> !result.satisfiable || LateGroupsAreSingle(Widths(result, Groups(result)), 1, limit)))
  {
    var result := Execute(query, held, policy);
    var groups := Groups(result);
    if result.satisfiable && groups != [] {
      GroupsHaveWays(query, held, policy);
      CompletionsCount(result, NOTHING, groups);
      SkipsAgainstTruth(Widths(result, groups), 1, limit);
    }
  }

  /** Nothing skipped, nothing missing. */
  lemma {:induction false} NothingSkipped(widths: seq<nat>, partials: nat, limit: nat)
    requires widths != [] && Positive(widths) && Skips(widths, partials, limit) == 0
    ensures Ways(widths) * partials <= limit
  {
    if partials == 0 {
    } else {
      var tail, n := widths[1..], widths[0] * partials;
      assert Ways(widths) * partials == Ways(tail) * n by {
        MulSwap(widths[0], Ways(tail), partials);
      }
      if tail == [] {
      } else {
        NothingSkipped(tail, n, limit);
      }
    }
  }

  /** A report of nothing says that nothing was skipped. */
  lemma ReportsNothingIff(dropped: Dropped, count: nat, countable: bool, limit: nat, most: nat)
    requires Reports(dropped, count, countable, limit, most) && limit < most
    ensures dropped.count == 0 <==> count == 0
  {
  }

  /**
   * For any query, a report says that something was dropped when and only when the list was cut, if and only if
   * every group has ways or none was cut before the first that has none.
   */
  lemma DroppedAnyExactly(result: QueryResult, limit: nat, most: nat, dropped: Dropped)
    requires limit < most && Reports(dropped, SkipsOf(result, limit), Countable(result, limit, most), limit, most)
    ensures (dropped.count > 0 <==> |Enumeration(result)| > limit)
       <==> (!result.satisfiable || AllFound(result) || SkipsOf(result, limit) == 0)
  {
    var groups := Groups(result);
    var widths := Widths(result, groups);
    ReportsNothingIff(dropped, SkipsOf(result, limit), Countable(result, limit, most), limit, most);
    GroupsFoundIff(result);
    CompletionsCount(result, NOTHING, groups);
    if result.satisfiable && groups != [] {
      if Positive(widths) {
        SkipsAgainstTruth(widths, 1, limit);
        if SkipsOf(result, limit) == 0 {
          NothingSkipped(widths, 1, limit);
        }
      } else {
        var i: nat :| i < |widths| && widths[i] == 0;
        WaysIsZero(widths, i);
      }
    }
  }

  /** For a query with usable ids a report says that something was dropped exactly when the list was cut. */
  lemma DroppedAnyIff(query: Query, held: seq<Credential>, policy: Policy, limit: nat, most: nat, dropped: Dropped)
    requires UsableIds(query.credentials) && limit < most
    requires var result := Execute(query, held, policy);
      Reports(dropped, SkipsOf(result, limit), Countable(result, limit, most), limit, most)
    ensures dropped.count > 0 <==> |Enumeration(Execute(query, held, policy))| > limit
  {
    var result := Execute(query, held, policy);
    DroppedAnyExactly(result, limit, most, dropped);
    GroupsFoundIff(result);
    GroupsHaveWays(query, held, policy);
  }

  /** With at most one required group an exact report is the truth. */
  lemma OneGroupIsCountedExactly(query: Query, held: seq<Credential>, policy: Policy, limit: nat, most: nat, dropped: Dropped)
    requires UsableIds(query.credentials)
    requires var result := Execute(query, held, policy);
      |Groups(result)| <= 1 && Reports(dropped, SkipsOf(result, limit), Countable(result, limit, most), limit, most)
    ensures var result := Execute(query, held, policy);
      dropped.Exact? ==> dropped.count == |Enumeration(result)| - |Take(limit, Enumeration(result))|
  {
    DroppedAgainstTruth(query, held, policy, limit, most, dropped);
  }

  const FIRST: Text := Ascii("a")
  const SECOND: Text := Ascii("b")

  /** Two required sets, each of one query any held credential answers. */
  function TwoSetsQuery(): Query {
    var asked := CredentialQuery(FIRST, [], false, map[], false, [], None);
    Query([asked, asked.(id := SECOND)],
          Some([CredentialSetQuery([[FIRST]], true, None), CredentialSetQuery([[SECOND]], true, None)]))
  }

  function TwoSetsResult(x: Credential, y: Credential): QueryResult {
    Execute(TwoSetsQuery(), [x, y], SameFormat)
  }

  function BothCandidates(x: Credential, y: Credential): seq<Candidate> {
    [Candidate(x.id, []), Candidate(y.id, [])]
  }

  lemma TwoNames()
    ensures FIRST != SECOND && FIRST != [] && SECOND != []
  {
    assert FIRST[0] != SECOND[0];
  }

  lemma TwoSetsMatches(x: Credential, y: Credential)
    requires x.format == y.format == []
    ensures var result, both := TwoSetsResult(x, y), BothCandidates(x, y);
      && result.matches == [QueryMatch(FIRST, both, false), QueryMatch(SECOND, both, false)]
      && result.Find(FIRST) == Some(result.matches[0]) && result.Find(SECOND) == Some(result.matches[1])
  {
    var result := TwoSetsResult(x, y);
    TwoCandidates(TwoSetsQuery().credentials[0], x, y);
    TwoCandidates(TwoSetsQuery().credentials[1], x, y);
    TwoNames();
    assert FindMatch(result.matches[1..], SECOND) == Some(result.matches[1]);
  }

  /** An option of one query with two candidates has two ways. */
  lemma OneQueryWays(result: QueryResult, id: Text)
    requires result.Find(id).Some? && !result.Find(id).value.multiple && |result.Find(id).value.candidates| == 2
    ensures Satisfied(result, [id]) && |GroupWays(result, Group(None, [[id]]))| == 2
  {
    var wheel := Wheel(id, result.Find(id).value.candidates, false);
    assert [id][1..] == [] && WheelsOf(result, []) == Some([]);
    assert [wheel] + [] == [wheel] && WheelsOf(result, [id]) == Some([wheel]);
    ProductLength([wheel]);
    assert [wheel][1..] == [] && Total([wheel]) == 2;
    assert [[id]][1..] == [] && WaysOf(result, [[id]]) == OptionWays(result, [id]) + WaysOf(result, []);
  }

  lemma TwoSetsGroups(x: Credential, y: Credential)
    requires x.format == y.format == []
    ensures TwoSetsResult(x, y).satisfiable
    ensures Groups(TwoSetsResult(x, y)) == [Group(None, [[FIRST]]), Group(None, [[SECOND]])]
    ensures Widths(TwoSetsResult(x, y), Groups(TwoSetsResult(x, y))) == [2, 2]
  {
    hide Candidates, OptionWays, GroupWays, Satisfied, RequiredSetsFound;
    var result, sets := TwoSetsResult(x, y), TwoSetsQuery().credentialSets.value;
    TwoNames();
    TwoSetsMatches(x, y);
    OneQueryWays(result, FIRST);
    OneQueryWays(result, SECOND);
    TwoSetsRequired(result, sets);
    assert result.matches[0] in result.matches;
    ExecuteKeepsIdsUnique(TwoSetsQuery(), [x, y], SameFormat);
    RequiredGroupsFound(result, sets);
    RequiredGroupsHaveWays(result, sets);
  }

  lemma TwoSetsRequired(result: QueryResult, sets: seq<CredentialSetQuery>)
    requires sets == TwoSetsQuery().credentialSets.value
    requires Satisfied(result, [FIRST]) && Satisfied(result, [SECOND])
    ensures RequiredGroups(result, sets) == [Group(None, [[FIRST]]), Group(None, [[SECOND]])]
    ensures RequiredSetsFound(result, sets)
  {
    hide Satisfied;
    OneOptionKept(result, FIRST);
    OneOptionKept(result, SECOND);
    assert sets[1..] == [sets[1]] && [sets[1]][1..] == [];
    assert RequiredGroups(result, [sets[1]]) == [Group(None, [[SECOND]])] + RequiredGroups(result, []);
    assert [FIRST] in sets[0].options && [SECOND] in sets[1].options;
  }

  lemma OneOptionKept(result: QueryResult, id: Text)
    requires Satisfied(result, [id])
    ensures SatisfiedOptions(result, [[id]]) == [[id]]
  {
    assert [[id]][1..] == [];
  }

  /**
   * Two required sets and two credentials that answer both, cut to one combination: four exist and one is
   * returned, so three are left out, and every report says two, exactly.
   */
  lemma CutGroupsAreUndercounted(x: Credential, y: Credential, most: nat, dropped: Dropped)
    requires x.format == y.format == [] && most >= 2
    requires var result := TwoSetsResult(x, y);
      Reports(dropped, SkipsOf(result, 1), Countable(result, 1, most), 1, most)
    ensures dropped == Exact(2)
    ensures |Enumeration(TwoSetsResult(x, y))| == 4 && |Take(1, Enumeration(TwoSetsResult(x, y)))| == 1
  {
    hide OptionWays;
    var result := TwoSetsResult(x, y);
    var groups := Groups(result);
    TwoSetsGroups(x, y);
    CompletionsCount(result, NOTHING, groups);
    assert [2, 2][1..] == [2] && [2][1..] == [];
    assert Ways([2]) == 2;
    assert Skips([2], 1, 1) == 1;
    TwoSetsCountable(result, most);
  }

  lemma TwoSetsCountable(result: QueryResult, most: nat)
    requires most >= 2 && Groups(result) == [Group(None, [[FIRST]]), Group(None, [[SECOND]])]
    requires Widths(result, Groups(result)) == [2, 2]
    ensures Countable(result, 1, most)
  {
    hide OptionWays;
    var groups := Groups(result);
    assert |GroupWays(result, groups[0])| == Widths(result, groups)[0] == 2;
    assert |GroupWays(result, groups[1])| == Widths(result, groups)[1] == 2;
    assert groups[1..] == [groups[1]] && [groups[1]][1..] == [];
    OneOptionFits(result, FIRST, most);
    OneOptionFits(result, SECOND, most);
    assert AllFit(result, [groups[1]], 1, 1, most);
  }

  lemma OneOptionFits(result: QueryResult, id: Text, most: nat)
    requires |GroupWays(result, Group(None, [[id]]))| <= most
    ensures OptionsFit(result, [[id]], most)
  {
    assert [[id]][1..] == [];
  }

  /** The first set has two ways; the second asks for an id whose first match has none. */
  function CutBeforeNothingQuery(): Query {
    var asked := CredentialQuery(FIRST, [], false, map[], false, [], None);
    Query([asked, asked.(id := SECOND, format := PID), asked.(id := SECOND)], TwoSetsQuery().credentialSets)
  }

  /** Without usable ids something can be reported dropped when no combination exists at all. */
  lemma CutBeforeNothing(x: Credential, y: Credential, most: nat, dropped: Dropped)
    requires x.format == y.format == [] && most >= 2
    requires var result := Execute(CutBeforeNothingQuery(), [x, y], SameFormat);
      Reports(dropped, SkipsOf(result, 1), Countable(result, 1, most), 1, most)
    ensures dropped.count > 0 && Enumeration(Execute(CutBeforeNothingQuery(), [x, y], SameFormat)) == []
  {
    hide OptionWays, Candidates, Satisfied, RequiredGroups, Completions, FindMatch, Reports, OptionMet;
    var result := Execute(CutBeforeNothingQuery(), [x, y], SameFormat);
    CutBeforeNothingMatches(x, y);
    OneQueryWays(result, FIRST);
    NoQueryWays(result, SECOND);
    CutBeforeNothingGroups(result);
    var groups := Groups(result);
    assert Widths(result, groups) == [2, 0];
    CompletionsCount(result, NOTHING, groups);
    WaysIsZero([2, 0], 1);
    assert [2, 0][1..] == [0] && Skips([0], 1, 1) == 0;
    ReportsNothingIff(dropped, SkipsOf(result, 1), Countable(result, 1, most), 1, most);
  }

  lemma CutBeforeNothingMatches(x: Credential, y: Credential)
    requires x.format == y.format == []
    ensures var result, both := Execute(CutBeforeNothingQuery(), [x, y], SameFormat), BothCandidates(x, y);
      && result.matches == [QueryMatch(FIRST, both, false), QueryMatch(SECOND, [], false), QueryMatch(SECOND, both, false)]
      && result.Find(FIRST) == Some(result.matches[0]) && result.Find(SECOND) == Some(result.matches[1])
      && result.satisfiable
  {
    hide Candidates;
    var result, queries := Execute(CutBeforeNothingQuery(), [x, y], SameFormat), CutBeforeNothingQuery().credentials;
    TwoNames();
    TwoCandidates(queries[0], x, y);
    TwoCandidates(queries[2], x, y);
    NoCandidates(queries[1], x, y);
    assert FindMatch(result.matches[1..], SECOND) == Some(result.matches[1]);
    assert result.matches[0] in result.matches && result.matches[2] in result.matches;
    assert OptionMet(result.matches, [FIRST]) && OptionMet(result.matches, [SECOND]);
    var sets := TwoSetsQuery().credentialSets.value;
    assert [FIRST] in sets[0].options && [SECOND] in sets[1].options;
  }

  lemma TwoCandidates(query: CredentialQuery, x: Credential, y: Credential)
    requires x.format == y.format == query.format && !query.requireHolderBinding && query.claims == [] && query.claimSets.None?
    ensures Candidates(query, [x, y], SameFormat) == BothCandidates(x, y)
  {
    assert [x, y][1..] == [y] && [y][1..] == [];
    assert Candidates(query, [y], SameFormat) == [Candidate(y.id, [])];
  }

  lemma NoCandidates(query: CredentialQuery, x: Credential, y: Credential)
    requires query.format != x.format && query.format != y.format
    ensures Candidates(query, [x, y], SameFormat) == []
  {
    assert [x, y][1..] == [y] && [y][1..] == [];
    assert Candidates(query, [y], SameFormat) == [];
  }

  lemma NoQueryWays(result: QueryResult, id: Text)
    requires result.Find(id).Some? && result.Find(id).value.candidates == []
    ensures SatisfiedOptions(result, [[id]]) == []
  {
    assert id in [id] && !Satisfied(result, [id]);
    assert [[id]][1..] == [];
  }

  lemma CutBeforeNothingGroups(result: QueryResult)
    requires result.credentialSets == TwoSetsQuery().credentialSets
    requires Satisfied(result, [FIRST]) && SatisfiedOptions(result, [[SECOND]]) == []
    ensures Groups(result) == [Group(None, [[FIRST]]), Group(None, [])]
  {
    hide Satisfied;
    var sets := result.credentialSets.value;
    OneOptionKept(result, FIRST);
    assert sets[1..] == [sets[1]] && [sets[1]][1..] == [];
    assert RequiredGroups(result, [sets[1]]) == [Group(None, [])] + RequiredGroups(result, []);
  }

  /** The listing itself. */
  method ListCutGroups(x: Credential, y: Credential, most: nat) returns (listing: Listing)
    requires x.format == y.format == [] && most >= 2
    ensures listing.dropped == Exact(2) && |listing.combinations| == 1
    ensures |Enumeration(TwoSetsResult(x, y))| == 4
  {
    listing := Enumerate(TwoSetsResult(x, y), 1, most);
    CutGroupsAreUndercounted(x, y, most, listing.dropped);
  }
}
