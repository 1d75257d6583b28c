/** What the enumeration means: which combinations it holds, when it holds any, and what its count is worth. */
module CombinationFacts {
  import opened Bytes
  import opened Wrappers
  import opened Sequences
  import opened DcqlPath
  import opened DcqlQuery
  import opened DcqlEval
  import opened Odometer
  import opened Products
  import opened Combinations

  // ---- which combinations ------------------------------------------------------

  /** `piece` answers the query `id`: with all its candidates when it accepts several, else with one of them. */
  ghost predicate AnswersQuery(result: QueryResult, id: Text, piece: seq<Member>) {
    var query := result.Find(id);
    && query.Some? && query.value.candidates != []
    && if query.value.multiple
       then piece == seq(|query.value.candidates|, i requires 0 <= i < |query.value.candidates| => (id, query.value.candidates[i]))
       else exists candidate :: candidate in query.value.candidates && piece == [(id, candidate)]
  }

  /** `members` answer every query of the option, in its order, and nothing else. */
  ghost predicate AnswersOption(result: QueryResult, option: seq<Text>, members: seq<Member>) {
    exists pieces :: IsAnswer(result, option, members, pieces)
  }

  ghost predicate IsAnswer(result: QueryResult, option: seq<Text>, members: seq<Member>, pieces: seq<seq<Member>>) {
    && |pieces| == |option|
    && members == Concat(pieces)
    && forall k :: 0 <= k < |option| ==> AnswersQuery(result, option[k], pieces[k])
  }

  lemma {:induction false} InSpin(wheel: Wheel, tails: seq<seq<Member>>, members: seq<Member>)
    ensures members in Concat(Spin(wheel, tails)) <==>
      exists d: nat, t: nat :: d < wheel.Width() && t < |tails| && members == wheel.At(d) + tails[t]
  {
    InConcat(Spin(wheel, tails), members);
    if members in Concat(Spin(wheel, tails)) {
      var t :| 0 <= t < |tails| && members in Spin(wheel, tails)[t];
      var d :| 0 <= d < wheel.Width() && members == SpinBefore(wheel, tails[t])[d];
    }
    if d: nat, t: nat :| d < wheel.Width() && t < |tails| && members == wheel.At(d) + tails[t] {
      assert SpinBefore(wheel, tails[t])[d] == members;
      assert members in Spin(wheel, tails)[t];
    }
  }

  lemma WheelAnswers(result: QueryResult, id: Text, piece: seq<Member>)
    requires result.Find(id).Some? && result.Find(id).value.candidates != []
    ensures var query := result.Find(id).value;
      var wheel := Wheel(id, query.candidates, query.multiple);
      AnswersQuery(result, id, piece) <==> exists d: nat :: d < wheel.Width() && piece == wheel.At(d)
  {
    var query := result.Find(id).value;
    var wheel := Wheel(id, query.candidates, query.multiple);
    if AnswersQuery(result, id, piece) {
      if query.multiple {
        assert piece == wheel.At(0);
      } else {
        var candidate :| candidate in query.candidates && piece == [(id, candidate)];
        var d :| 0 <= d < |query.candidates| && query.candidates[d] == candidate;
        assert piece == wheel.At(d);
      }
    }
  }

  /** The ways of an option are exactly its answers. */
  lemma {:induction false} WaysAreAnswers(result: QueryResult, option: seq<Text>, members: seq<Member>)
    ensures members in OptionWays(result, option) <==> AnswersOption(result, option, members)
  {
    if option == [] {
      if members == [] {
        assert IsAnswer(result, option, members, []);
      }
    } else {
      var query := result.Find(option[0]);
      if query.Some? && query.value.candidates != [] {
        var wheel := Wheel(option[0], query.value.candidates, query.value.multiple);
        var tails := OptionWays(result, option[1..]);
        InSpin(wheel, tails, members);
        if members in OptionWays(result, option) {
          var d: nat, t: nat :| d < wheel.Width() && t < |tails| && members == wheel.At(d) + tails[t];
          WaysAreAnswers(result, option[1..], tails[t]);
          var pieces :| IsAnswer(result, option[1..], tails[t], pieces);
          WheelAnswers(result, option[0], wheel.At(d));
          AnswerPush(result, option, wheel.At(d), tails[t], pieces);
        }
      }
      if pieces :| IsAnswer(result, option, members, pieces) {
        AnswerIsWay(result, option, members, pieces);
      }
    }
  }

  lemma AnswerPush(
    result: QueryResult, option: seq<Text>, piece: seq<Member>, rest: seq<Member>, pieces: seq<seq<Member>>)
    requires option != [] && AnswersQuery(result, option[0], piece)
    requires IsAnswer(result, option[1..], rest, pieces)
    ensures IsAnswer(result, option, piece + rest, [piece] + pieces)
  {
    assert ([piece] + pieces)[1..] == pieces;
  }

  lemma {:induction false} AnswerIsWay(
    result: QueryResult, option: seq<Text>, members: seq<Member>, pieces: seq<seq<Member>>)
    requires IsAnswer(result, option, members, pieces)
    ensures members in OptionWays(result, option)
  {
    if option == [] {
    } else {
      assert AnswersQuery(result, option[0], pieces[0]);
      var query := result.Find(option[0]).value;
      var wheel := Wheel(option[0], query.candidates, query.multiple);
      var rest := Concat(pieces[1..]);
      forall k | 0 <= k < |option[1..]| ensures AnswersQuery(result, option[1..][k], pieces[1..][k]) {
        assert option[1..][k] == option[k + 1];
      }
      assert IsAnswer(result, option[1..], rest, pieces[1..]);
      AnswerIsWay(result, option[1..], rest, pieces[1..]);
      var tails := OptionWays(result, option[1..]);
      var t :| 0 <= t < |tails| && tails[t] == rest;
      WheelAnswers(result, option[0], pieces[0]);
      var d: nat :| d < wheel.Width() && pieces[0] == wheel.At(d);
      InSpin(wheel, tails, members);
    }
  }

  lemma {:induction false} InWaysOf(result: QueryResult, options: seq<seq<Text>>, members: seq<Member>)
    ensures members in WaysOf(result, options) <==>
      exists option :: option in options && members in OptionWays(result, option)
  {
    if options == [] {
    } else {
      InWaysOf(result, options[1..], members);
    }
  }

  /** The purposes of the groups, in order. */
  function Purposes(groups: seq<Group>): seq<Json> {
    if groups == [] then [] else PurposeList(groups[0].purpose) + Purposes(groups[1..])
  }

  ghost predicate PickedWays(result: QueryResult, groups: seq<Group>, parts: seq<seq<Member>>) {
    |parts| == |groups| && forall i :: 0 <= i < |groups| ==> parts[i] in GroupWays(result, groups[i])
  }

  function Joining(partial: Combination, groups: seq<Group>, parts: seq<seq<Member>>): Combination {
    Combination(partial.members + Concat(parts), partial.purposes + Purposes(groups))
  }

  lemma JoiningStep(partial: Combination, groups: seq<Group>, way: seq<Member>, rest: seq<seq<Member>>)
    requires groups != []
    ensures Joining(Joined(partial, way, groups[0].purpose), groups[1..], rest) == Joining(partial, groups, [way] + rest)
  {
    assert ([way] + rest)[1..] == rest;
    AppendAssociates(partial.members, way, Concat(rest));
    AppendAssociates(partial.purposes, PurposeList(groups[0].purpose), Purposes(groups[1..]));
  }

  lemma PickedStep(result: QueryResult, groups: seq<Group>, way: seq<Member>, rest: seq<seq<Member>>)
    requires groups != []
    ensures PickedWays(result, groups, [way] + rest)
       <==> way in GroupWays(result, groups[0]) && PickedWays(result, groups[1..], rest)
  {
    var parts := [way] + rest;
    if PickedWays(result, groups, parts) {
      forall k | 0 <= k < |groups[1..]| ensures rest[k] in GroupWays(result, groups[1..][k]) {
        assert groups[1..][k] == groups[k + 1] && rest[k] == parts[k + 1];
      }
    }
    if way in GroupWays(result, groups[0]) && PickedWays(result, groups[1..], rest) {
      forall k | 0 <= k < |groups| ensures parts[k] in GroupWays(result, groups[k]) {
        if k > 0 {
          assert groups[1..][k - 1] == groups[k] && rest[k - 1] == parts[k];
        }
      }
    }
  }

  lemma {:induction false} CompletionIsPicked(result: QueryResult, partial: Combination, groups: seq<Group>, c: Combination)
    returns (parts: seq<seq<Member>>)
    requires c in Completions(result, partial, groups)
    ensures PickedWays(result, groups, parts) && c == Joining(partial, groups, parts)
    decreases |groups|
  {
    if groups == [] {
      return [];
    }
    var ways := GroupWays(result, groups[0]);
    var extended := Extend(partial, ways, groups[0].purpose);
    var i := InAllCompletions(result, extended, groups[1..], c);
    var rest := CompletionIsPicked(result, extended[i], groups[1..], c);
    parts := [ways[i]] + rest;
    JoiningStep(partial, groups, ways[i], rest);
    PickedStep(result, groups, ways[i], rest);
  }

  lemma {:induction false} InAllCompletions(result: QueryResult, partials: seq<Combination>, groups: seq<Group>, c: Combination)
    returns (i: nat)
    requires c in AllCompletions(result, partials, groups)
    ensures i < |partials| && c in Completions(result, partials[i], groups)
    decreases |partials|
  {
    if c in Completions(result, partials[0], groups) {
      return 0;
    }
    i := InAllCompletions(result, partials[1..], groups, c);
    i := i + 1;
  }

  lemma {:induction false} ReachesAllCompletions(
    result: QueryResult, partials: seq<Combination>, i: nat, groups: seq<Group>, c: Combination)
    requires i < |partials| && c in Completions(result, partials[i], groups)
    ensures c in AllCompletions(result, partials, groups)
    decreases |partials|
  {
    if i == 0 {
    } else {
      ReachesAllCompletions(result, partials[1..], i - 1, groups, c);
    }
  }

  lemma {:induction false} PickedIsCompletion(
    result: QueryResult, partial: Combination, groups: seq<Group>, parts: seq<seq<Member>>)
    requires PickedWays(result, groups, parts)
    ensures Joining(partial, groups, parts) in Completions(result, partial, groups)
    decreases |groups|
  {
    var c := Joining(partial, groups, parts);
    if groups == [] {
      assert c == partial;
    } else {
      var way, rest := parts[0], parts[1..];
      assert parts == [way] + rest;
      PickedStep(result, groups, way, rest);
      PickedIsCompletion(result, Joined(partial, way, groups[0].purpose), groups[1..], rest);
      JoiningStep(partial, groups, way, rest);
      StepReaches(result, partial, groups, way, c);
    }
  }

  lemma StepReaches(result: QueryResult, partial: Combination, groups: seq<Group>, way: seq<Member>, c: Combination)
    requires groups != [] && way in GroupWays(result, groups[0])
    requires c in Completions(result, Joined(partial, way, groups[0].purpose), groups[1..])
    ensures c in Completions(result, partial, groups)
  {
    var ways := GroupWays(result, groups[0]);
    var i :| 0 <= i < |ways| && ways[i] == way;
    ReachesAllCompletions(result, Extend(partial, ways, groups[0].purpose), i, groups[1..], c);
  }

  /** For each group, in order, `chosen[i]` is one of its options and `parts[i]` answers all of its queries. */
  ghost predicate AnswersGroups(
    result: QueryResult, groups: seq<Group>, chosen: seq<seq<Text>>, parts: seq<seq<Member>>)
  {
    && |chosen| == |parts| == |groups|
    && forall i :: 0 <= i < |groups| ==> chosen[i] in groups[i].options && AnswersOption(result, chosen[i], parts[i])
  }

  lemma PickedIsAnswered(result: QueryResult, groups: seq<Group>, parts: seq<seq<Member>>)
    ensures PickedWays(result, groups, parts) <==> exists chosen :: AnswersGroups(result, groups, chosen, parts)
  {
    if PickedWays(result, groups, parts) {
      forall i | 0 <= i < |groups|
        ensures exists option :: option in groups[i].options && AnswersOption(result, option, parts[i])
      {
        InWaysOf(result, groups[i].options, parts[i]);
        var option :| option in groups[i].options && parts[i] in OptionWays(result, option);
        WaysAreAnswers(result, option, parts[i]);
      }
      var chosen := seq(|groups|, i requires 0 <= i < |groups| =>
        var option :| option in groups[i].options && AnswersOption(result, option, parts[i]); option);
      assert AnswersGroups(result, groups, chosen, parts);
    }
    if chosen :| AnswersGroups(result, groups, chosen, parts) {
      forall i | 0 <= i < |groups| ensures parts[i] in GroupWays(result, groups[i]) {
        WaysAreAnswers(result, chosen[i], parts[i]);
        InWaysOf(result, groups[i].options, parts[i]);
      }
    }
  }

  /**
   * The enumeration holds exactly the combinations that answer, for each required group in order, every query
   * of one of its options, with the groups' purposes in order.
   */
  lemma EnumerationIff(result: QueryResult, c: Combination)
    ensures c in Enumeration(result) <==>
      result.satisfiable && Groups(result) != [] &&
      exists chosen, parts :: AnswersGroups(result, Groups(result), chosen, parts)
        && c == Combination(Concat(parts), Purposes(Groups(result)))
  {
    var groups := Groups(result);
    if c in Enumeration(result) {
      var parts := CompletionIsPicked(result, NOTHING, groups, c);
      PickedIsAnswered(result, groups, parts);
      var chosen :| AnswersGroups(result, groups, chosen, parts);
    }
    if result.satisfiable && groups != [] {
      forall chosen, parts | AnswersGroups(result, groups, chosen, parts)
        ensures Combination(Concat(parts), Purposes(groups)) in Enumeration(result)
      {
        PickedIsAnswered(result, groups, parts);
        PickedIsCompletion(result, NOTHING, groups, parts);
        assert Joining(NOTHING, groups, parts) == Combination(Concat(parts), Purposes(groups));
      }
    }
  }

  /** `member` is a credential that passed binding, policy and claim selection for the query it answers. */
  ghost predicate Permitted(query: Query, held: seq<Credential>, policy: Policy, member: Member) {
    exists i, j :: 0 <= i < |query.credentials| && 0 <= j < |held| && query.credentials[i].id == member.0
      && Offer(query.credentials[i], held[j], policy) == Some(member.1)
  }

  lemma AnswerIsPermitted(query: Query, held: seq<Credential>, policy: Policy, id: Text, piece: seq<Member>)
    requires AnswersQuery(Execute(query, held, policy), id, piece)
    ensures forall member :: member in piece ==> member.0 == id && Permitted(query, held, policy, member)
  {
    var result := Execute(query, held, policy);
    FindIsFirst(result.matches, id);
    var found := result.Find(id).value;
    var i :| 0 <= i < |result.matches| && result.matches[i] == found;
    forall member | member in piece ensures member.0 == id && Permitted(query, held, policy, member) {
      CandidateIff(query.credentials[i], held, policy, member.1);
    }
  }

  /** Nothing the wallet is not permitted to return is ever part of a combination. */
  lemma EveryMemberIsPermitted(query: Query, held: seq<Credential>, policy: Policy, c: Combination, member: Member)
    requires c in Enumeration(Execute(query, held, policy)) && member in c.members
    ensures Permitted(query, held, policy, member)
  {
    var result := Execute(query, held, policy);
    EnumerationIff(result, c);
    var chosen, parts :| AnswersGroups(result, Groups(result), chosen, parts)
      && c == Combination(Concat(parts), Purposes(Groups(result)));
    InConcat(parts, member);
    var i :| 0 <= i < |parts| && member in parts[i];
    var pieces :| IsAnswer(result, chosen[i], parts[i], pieces);
    InConcat(pieces, member);
    var k :| 0 <= k < |pieces| && member in pieces[k];
    AnswerIsPermitted(query, held, policy, chosen[i][k], pieces[k]);
  }

  // ---- when no way is listed twice -----------------------------------------------

  lemma {:induction false} WheelAt(result: QueryResult, option: seq<Text>, k: nat)
    requires WheelsOf(result, option).Some? && k < |option|
    ensures |WheelsOf(result, option).value| == |option| && result.Find(option[k]).Some?
    ensures var query := result.Find(option[k]).value;
      WheelsOf(result, option).value[k] == Wheel(option[k], query.candidates, query.multiple)
  {
    WheelsTurn(result, option);
    if k == 0 {
    } else {
      WheelAt(result, option[1..], k - 1);
    }
  }

  /** The query takes all its candidates at once, or no candidate of it is listed twice. */
  ghost predicate OffersOnce(result: QueryResult, id: Text) {
    var query := result.Find(id);
    query.None? || query.value.multiple || Distinct(query.value.candidates)
  }

  /** No way of an option is listed twice exactly when no query of it lists one of its alternatives twice. */
  lemma WaysDifferIff(result: QueryResult, option: seq<Text>)
    requires WheelsOf(result, option).Some?
    ensures Distinct(OptionWays(result, option)) <==> forall id :: id in option ==> OffersOnce(result, id)
  {
    var wheels := WheelsOf(result, option).value;
    WheelsTurn(result, option);
    ProductDiffersIff(wheels);
    forall k | 0 <= k < |option|
      ensures OffersOnce(result, option[k]) <==> (!wheels[k].every ==> Distinct(wheels[k].candidates))
    {
      WheelAt(result, option, k);
    }
  }

  ghost predicate DistinctIds(held: seq<Credential>) {
    forall i, j :: 0 <= i < j < |held| ==> held[i].id != held[j].id
  }

  lemma {:induction false} CandidatesAreDistinct(query: CredentialQuery, held: seq<Credential>, policy: Policy)
    requires DistinctIds(held)
    ensures Distinct(Candidates(query, held, policy))
  {
    if held == [] {
    } else {
      var rest := Candidates(query, held[1..], policy);
      CandidatesAreDistinct(query, held[1..], policy);
      forall candidate | candidate in rest ensures candidate.credentialId != held[0].id {
        CandidateIff(query, held[1..], policy, candidate);
        var j :| 0 <= j < |held[1..]| && Offer(query, held[1..][j], policy) == Some(candidate);
        assert held[1..][j] == held[j + 1];
      }
    }
  }

  lemma HeldOnceIsOfferedOnce(query: Query, held: seq<Credential>, policy: Policy, id: Text)
    requires DistinctIds(held)
    ensures OffersOnce(Execute(query, held, policy), id)
  {
    var result := Execute(query, held, policy);
    FindIsFirst(result.matches, id);
    if result.Find(id).Some? {
      var i :| 0 <= i < |result.matches| && result.matches[i] == result.Find(id).value;
      CandidatesAreDistinct(query.credentials[i], held, policy);
    }
  }

  /** A wallet that holds no id twice lists no way of any option twice. */
  lemma WaysOfDistinctCredentials(query: Query, held: seq<Credential>, policy: Policy, option: seq<Text>)
    requires DistinctIds(held)
    ensures Distinct(OptionWays(Execute(query, held, policy), option))
  {
    var result := Execute(query, held, policy);
    if WheelsOf(result, option).Some? {
      forall id | id in option ensures OffersOnce(result, id) {
        HeldOnceIsOfferedOnce(query, held, policy, id);
      }
      WaysDifferIff(result, option);
    }
  }

  /** Held twice, listed twice. */
  lemma HeldTwiceIsListedTwice(query: CredentialQuery, held: Credential, policy: Policy)
    requires Offer(query, held, policy).Some? && !query.multiple
    ensures !Distinct(OptionWays(Execute(Query([query], None), [held, held], policy), [query.id]))
  {
    var result := Execute(Query([query], None), [held, held], policy);
    var candidate := Offer(query, held, policy).value;
    assert [held, held][1..] == [held] && [held][1..] == [];
    assert Candidates(query, [held], policy) == [candidate] + Candidates(query, [], policy) == [candidate];
    assert Candidates(query, [held, held], policy) == [candidate] + [candidate];
    assert result.matches[0] == QueryMatch(query.id, Candidates(query, [held, held], policy), false);
    assert result.Find(query.id) == Some(result.matches[0]);
    assert [query.id][1..] == [] && WheelsOf(result, []) == Some([]);
    var candidates := result.Find(query.id).value.candidates;
    assert candidates == [candidate, candidate] && candidates[0] == candidates[1];
    assert query.id in [query.id] && !OffersOnce(result, query.id);
    WaysDifferIff(result, [query.id]);
  }
}
