/** Which credentials answer a query and when a request is satisfiable, from the wallet and the request alone. */
module DcqlEvalFacts {
  import opened Bytes
  import opened Wrappers
  import opened DcqlPath
  import opened DcqlQuery
  import opened DcqlEval

  /** The credential has the claim, with a value the query allows when it restricts them. */
  ghost predicate Present(claim: ClaimsQuery, credential: Credential) {
    match credential.claim(claim.path)
    case Err(_) => false
    case Ok(found) =>
      found != [] && (claim.values.Some? ==> exists value :: value in found && value in claim.values.value)
  }

  /** The credential passes everything but the claims: binding when it is asked for, and the policy. */
  predicate Passes(query: CredentialQuery, credential: Credential, policy: Policy) {
    (query.requireHolderBinding ==> credential.holderBound) && policy(query, credential)
  }

  function Named(claim: ClaimsQuery): SelectedClaim {
    SelectedClaim(claim.id, claim.path)
  }

  function AllNamed(claims: seq<ClaimsQuery>): seq<SelectedClaim> {
    seq(|claims|, k requires 0 <= k < |claims| => Named(claims[k]))
  }

  lemma ResolvesIff(claim: ClaimsQuery, credential: Credential)
    ensures Resolve(claim, credential) == if Present(claim, credential) then Some(Named(claim)) else None
  {
  }

  lemma {:induction false} ResolvesAllIff(claims: seq<ClaimsQuery>, credential: Credential)
    ensures ResolveAll(claims, credential)
         == if forall claim :: claim in claims ==> Present(claim, credential) then Some(AllNamed(claims)) else None
  {
    if claims == [] {
    } else {
      hide Resolve, Present, Named;
      ResolvesIff(claims[0], credential);
      ResolvesAllIff(claims[1..], credential);
      assert forall claim :: claim in claims <==> claim == claims[0] || claim in claims[1..];
      assert AllNamed(claims) == [Named(claims[0])] + AllNamed(claims[1..]);
    }
  }

  lemma OfferedIff(query: CredentialQuery, credential: Credential, policy: Policy, candidate: Candidate)
    ensures Offer(query, credential, policy) == Some(candidate) <==>
      Passes(query, credential, policy) && SelectClaims(query, credential) == Some(candidate.claims)
      && candidate.credentialId == credential.id
  {
  }

  /**
   * Without claim sets: the candidates are exactly the held credentials that pass and have every claim, each under
   * its own id with every claim disclosed, in the order of the query.
   */
  lemma CandidateWithClaimsIff(query: CredentialQuery, held: seq<Credential>, policy: Policy, candidate: Candidate)
    requires query.claimSets.None?
    ensures candidate in Candidates(query, held, policy) <==>
      exists i :: 0 <= i < |held| && Passes(query, held[i], policy)
        && (forall claim :: claim in query.claims ==> Present(claim, held[i]))
        && candidate == Candidate(held[i].id, AllNamed(query.claims))
  {
    hide Offer, SelectClaims, Present, Passes, AllNamed;
    CandidateIff(query, held, policy, candidate);
    forall i | 0 <= i < |held|
      ensures Offer(query, held[i], policy) == Some(candidate) <==>
        Passes(query, held[i], policy) && (forall claim :: claim in query.claims ==> Present(claim, held[i]))
        && candidate == Candidate(held[i].id, AllNamed(query.claims))
    {
      OfferedIff(query, held[i], policy, candidate);
      ClaimsSelected(query, held[i]);
    }
  }

  lemma ClaimsSelected(query: CredentialQuery, credential: Credential)
    requires query.claimSets.None?
    ensures SelectClaims(query, credential)
         == if forall claim :: claim in query.claims ==> Present(claim, credential) then Some(AllNamed(query.claims)) else None
  {
    ResolvesAllIff(query.claims, credential);
  }

  // ---- claim sets ------------------------------------------------------------------------

  /** Every id of the set names a claim the credential has. */
  ghost predicate SetPresent(query: CredentialQuery, ids: seq<Text>, credential: Credential) {
    forall id :: id in ids ==> FindClaim(query.claims, id).Some? && Present(FindClaim(query.claims, id).value, credential)
  }

  /** What disclosing the claim of an id shows. */
  function NamedId(query: CredentialQuery, id: Text): SelectedClaim {
    match FindClaim(query.claims, id)
    case Some(claim) => Named(claim)
    case None => SelectedClaim(None, [])
  }

  function SetNamed(query: CredentialQuery, ids: seq<Text>): seq<SelectedClaim> {
    seq(|ids|, k requires 0 <= k < |ids| => NamedId(query, ids[k]))
  }

  lemma {:induction false} ResolvesIdsIff(query: CredentialQuery, ids: seq<Text>, credential: Credential)
    ensures ResolveIds(query, ids, credential)
         == if SetPresent(query, ids, credential) then Some(SetNamed(query, ids)) else None
  {
    if ids == [] {
    } else {
      hide Resolve, Present, Named;
      ResolvesIdsIff(query, ids[1..], credential);
      assert forall id :: id in ids <==> id == ids[0] || id in ids[1..];
      assert SetNamed(query, ids) == [NamedId(query, ids[0])] + SetNamed(query, ids[1..]);
      if FindClaim(query.claims, ids[0]).Some? {
        ResolvesIff(FindClaim(query.claims, ids[0]).value, credential);
      }
    }
  }

  /** The place of the first set the credential has all of. */
  ghost predicate FirstPresent(query: CredentialQuery, sets: seq<seq<Text>>, credential: Credential, k: nat) {
    && k < |sets| && SetPresent(query, sets[k], credential)
    && forall j :: 0 <= j < k ==> !SetPresent(query, sets[j], credential)
  }

  lemma {:induction false} FirstSetIs(query: CredentialQuery, sets: seq<seq<Text>>, credential: Credential)
    ensures FirstSet(query, sets, credential).Some? ==>
      exists k: nat :: FirstPresent(query, sets, credential, k)
        && FirstSet(query, sets, credential) == Some(SetNamed(query, sets[k]))
    ensures FirstSet(query, sets, credential).None? ==> forall k :: 0 <= k < |sets| ==> !SetPresent(query, sets[k], credential)
  {
    if sets == [] {
    } else {
      hide SetPresent, SetNamed;
      ResolvesIdsIff(query, sets[0], credential);
      FirstSetIs(query, sets[1..], credential);
      if SetPresent(query, sets[0], credential) {
        assert FirstPresent(query, sets, credential, 0);
      } else if FirstSet(query, sets[1..], credential).Some? {
        var k: nat :| FirstPresent(query, sets[1..], credential, k)
          && FirstSet(query, sets[1..], credential) == Some(SetNamed(query, sets[1..][k]));
        assert forall j :: 0 < j <= k ==> sets[j] == sets[1..][j - 1];
        assert FirstPresent(query, sets, credential, k + 1);
      } else {
        assert forall j :: 0 < j < |sets| ==> sets[j] == sets[1..][j - 1];
      }
    }
  }

  lemma FirstPresentIsOne(query: CredentialQuery, sets: seq<seq<Text>>, credential: Credential, j: nat, k: nat)
    requires FirstPresent(query, sets, credential, j) && FirstPresent(query, sets, credential, k)
    ensures j == k
  {
  }

  /** With claim sets: the held credentials that pass and have some set, each disclosing the first it has. */
  lemma CandidateWithSetsIff(query: CredentialQuery, held: seq<Credential>, policy: Policy, candidate: Candidate)
    requires query.claimSets.Some? && query.claims != []
    ensures candidate in Candidates(query, held, policy) <==>
      exists i, k: nat :: 0 <= i < |held| && Passes(query, held[i], policy)
        && FirstPresent(query, query.claimSets.value, held[i], k)
        && candidate == Candidate(held[i].id, SetNamed(query, query.claimSets.value[k]))
  {
    hide Offer, SetPresent, Passes, SetNamed, FirstSet;
    var sets := query.claimSets.value;
    CandidateIff(query, held, policy, candidate);
    forall i | 0 <= i < |held|
      ensures Offer(query, held[i], policy) == Some(candidate) <==>
        exists k: nat :: Passes(query, held[i], policy) && FirstPresent(query, sets, held[i], k)
          && candidate == Candidate(held[i].id, SetNamed(query, sets[k]))
    {
      OfferedIff(query, held[i], policy, candidate);
      FirstSetIs(query, sets, held[i]);
      if k: nat :| FirstPresent(query, sets, held[i], k) && candidate == Candidate(held[i].id, SetNamed(query, sets[k])) {
        var j: nat :| FirstPresent(query, sets, held[i], j) && FirstSet(query, sets, held[i]) == Some(SetNamed(query, sets[j]));
        FirstPresentIsOne(query, sets, held[i], j, k);
      }
    }
  }

  // ---- the whole request --------------------------------------------------------------------

  /** Some held credential answers the query. */
  ghost predicate Answered(query: CredentialQuery, held: seq<Credential>, policy: Policy) {
    exists candidate :: candidate in Candidates(query, held, policy)
  }

  /** Some query of the id is answered. */
  ghost predicate IdAnswered(query: Query, held: seq<Credential>, policy: Policy, id: Text) {
    exists q :: q in query.credentials && q.id == id && Answered(q, held, policy)
  }

  /** The matches of a request: one per query, in order, with its candidates. */
  lemma MatchesAre(query: Query, held: seq<Credential>, policy: Policy, i: nat)
    requires i < |query.credentials|
    ensures var result, q := Execute(query, held, policy), query.credentials[i];
      && |result.matches| == |query.credentials| && result.credentialSets == query.credentialSets
      && result.matches[i].queryId == q.id && result.matches[i].candidates == Candidates(q, held, policy)
      && result.matches[i].multiple == q.multiple
  {
  }

  lemma MatchedIff(query: Query, held: seq<Credential>, policy: Policy, id: Text)
    ensures (exists m :: m in Execute(query, held, policy).matches && m.queryId == id && m.IsSatisfied())
       <==> IdAnswered(query, held, policy, id)
  {
    var matches := Execute(query, held, policy).matches;
    if m :| m in matches && m.queryId == id && m.IsSatisfied() {
      var i :| 0 <= i < |matches| && matches[i] == m;
      assert m.candidates[0] in Candidates(query.credentials[i], held, policy);
    }
    if q :| q in query.credentials && q.id == id && Answered(q, held, policy) {
      var i :| 0 <= i < |query.credentials| && query.credentials[i] == q;
      assert matches[i] in matches && matches[i].IsSatisfied();
    }
  }

  /**
   * A request is satisfiable exactly when some query is answered and, without sets, every query is; with sets, every
   * required one has an option all of whose ids are answered.
   */
  lemma SatisfiableIff(query: Query, held: seq<Credential>, policy: Policy)
    ensures Execute(query, held, policy).satisfiable <==>
      && (exists q :: q in query.credentials && Answered(q, held, policy))
      && match query.credentialSets
         case None => forall q :: q in query.credentials ==> Answered(q, held, policy)
         case Some(sets) =>
           forall s :: s in sets && s.required ==>
             exists option :: option in s.options && forall id :: id in option ==> IdAnswered(query, held, policy, id)
  {
    hide Answered, IdAnswered, Candidates;
    var result := Execute(query, held, policy);
    forall id ensures (exists m :: m in result.matches && m.queryId == id && m.IsSatisfied()) <==> IdAnswered(query, held, policy, id) {
      MatchedIff(query, held, policy, id);
    }
    forall i | 0 <= i < |query.credentials|
      ensures result.matches[i].IsSatisfied() <==> Answered(query.credentials[i], held, policy)
    {
      SatisfiedIsAnswered(query, held, policy, i);
    }
    assert forall q :: q in query.credentials ==> exists i :: 0 <= i < |query.credentials| && query.credentials[i] == q;
    assert forall i :: 0 <= i < |query.credentials| ==> query.credentials[i] in query.credentials;
    assert forall i :: 0 <= i < |result.matches| ==> result.matches[i] in result.matches;
    SetsAnswered(query, held, policy);
  }

  lemma SatisfiedIsAnswered(query: Query, held: seq<Credential>, policy: Policy, i: nat)
    requires i < |query.credentials|
    ensures Execute(query, held, policy).matches[i].IsSatisfied() <==> Answered(query.credentials[i], held, policy)
  {
    var candidates := Candidates(query.credentials[i], held, policy);
    if candidates != [] {
      assert candidates[0] in candidates;
    }
  }

  lemma SetsAnswered(query: Query, held: seq<Credential>, policy: Policy)
    ensures query.credentialSets.Some? ==>
      (RequiredSetsMet(Execute(query, held, policy).matches, query.credentialSets.value) <==>
       forall s :: s in query.credentialSets.value && s.required ==>
         exists option :: option in s.options && forall id :: id in option ==> IdAnswered(query, held, policy, id))
  {
    hide IdAnswered, Execute;
    var matches := Execute(query, held, policy).matches;
    forall option ensures OptionMet(matches, option) <==> forall id :: id in option ==> IdAnswered(query, held, policy, id) {
      forall id ensures (exists m :: m in matches && m.queryId == id && m.IsSatisfied()) <==> IdAnswered(query, held, policy, id) {
        MatchedIff(query, held, policy, id);
      }
    }
  }
}
