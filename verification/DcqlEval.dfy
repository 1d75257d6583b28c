/** Claim selection and query evaluation (OpenID4VP 1.0, sections 6.4 and 6.4.1). */
module DcqlEval {
  import opened Bytes
  import opened Wrappers
  import opened DcqlPath
  import opened DcqlQuery

  /** A held credential; `claim` resolves a pointer by the rules of its own format. */
  datatype Credential = Credential(
    id: Text,
    format: Text,
    holderBound: bool,
    claim: Path -> Result<seq<Json>, PathError>)

  /** Format and metadata matching, which a deployment supplies. */
  type Policy = (CredentialQuery, Credential) -> bool

  datatype SelectedClaim = SelectedClaim(claimId: Option<Text>, path: Path)

  datatype Candidate = Candidate(credentialId: Text, claims: seq<SelectedClaim>)

  datatype QueryMatch = QueryMatch(queryId: Text, candidates: seq<Candidate>, multiple: bool) {
    predicate IsSatisfied() {
      candidates != []
    }
  }

  datatype QueryResult = QueryResult(
    matches: seq<QueryMatch>,
    satisfiable: bool,
    credentialSets: Option<seq<CredentialSetQuery>>)
  {
    /** The first match of the id. */
    function Find(id: Text): Option<QueryMatch> {
      FindMatch(matches, id)
    }
  }

  function FindMatch(matches: seq<QueryMatch>, id: Text): Option<QueryMatch> {
    if matches == [] then None
    else if matches[0].queryId == id then Some(matches[0])
    else FindMatch(matches[1..], id)
  }

  // ---- claims --------------------------------------------------------------

  /** One claims query against one credential; a `values` restriction that excludes it makes it absent. */
  function Resolve(claim: ClaimsQuery, credential: Credential): Option<SelectedClaim> {
    match credential.claim(claim.path)
    case Err(_) => None
    case Ok(found) =>
      if found == [] then None
      else if claim.values.Some? && !(exists v :: v in found && v in claim.values.value) then None
      else Some(SelectedClaim(claim.id, claim.path))
  }

  /** All of the claims, or nothing when any does not resolve. */
  function ResolveAll(claims: seq<ClaimsQuery>, credential: Credential): Option<seq<SelectedClaim>> {
    if claims == [] then Some([])
    else match Resolve(claims[0], credential)
      case None => None
      case Some(first) =>
        match ResolveAll(claims[1..], credential)
        case None => None
        case Some(rest) => Some([first] + rest)
  }

  function ResolveIds(query: CredentialQuery, ids: seq<Text>, credential: Credential): Option<seq<SelectedClaim>> {
    if ids == [] then Some([])
    else match FindClaim(query.claims, ids[0])
      case None => None
      case Some(claim) =>
        match Resolve(claim, credential)
        case None => None
        case Some(first) =>
          match ResolveIds(query, ids[1..], credential)
          case None => None
          case Some(rest) => Some([first] + rest)
  }

  /** The first set the credential can satisfy. */
  function FirstSet(query: CredentialQuery, sets: seq<seq<Text>>, credential: Credential): Option<seq<SelectedClaim>> {
    if sets == [] then None
    else match ResolveIds(query, sets[0], credential)
      case Some(claims) => Some(claims)
      case None => FirstSet(query, sets[1..], credential)
  }

  function SelectClaims(query: CredentialQuery, credential: Credential): Option<seq<SelectedClaim>> {
    match query.claimSets
    case Some(sets) => if query.claims == [] then None else FirstSet(query, sets, credential)
    case None => if query.claims == [] then Some([]) else ResolveAll(query.claims, credential)
  }

  /** `selected[k]` discloses the claims query `wanted[k]`, for each k. */
  ghost predicate Discloses(wanted: seq<ClaimsQuery>, selected: seq<SelectedClaim>, credential: Credential) {
    |selected| == |wanted| && forall k :: 0 <= k < |wanted| ==> Resolve(wanted[k], credential) == Some(selected[k])
  }

  /** `ids` name claims of the query, all of which the credential discloses as `selected`. */
  ghost predicate DisclosesIds(query: CredentialQuery, ids: seq<Text>, selected: seq<SelectedClaim>, credential: Credential) {
    |selected| == |ids| && forall k :: 0 <= k < |ids| ==>
      var claim := FindClaim(query.claims, ids[k]);
      claim.Some? && Resolve(claim.value, credential) == Some(selected[k])
  }

  lemma {:induction false} ResolveAllIff(claims: seq<ClaimsQuery>, selected: seq<SelectedClaim>, credential: Credential)
    ensures ResolveAll(claims, credential) == Some(selected) <==> Discloses(claims, selected, credential)
  {
    if claims == [] || selected == [] {
    } else {
      ResolveAllIff(claims[1..], selected[1..], credential);
      assert selected == [selected[0]] + selected[1..];
      if ResolveAll(claims, credential) == Some(selected) {
        assert forall k :: 1 <= k < |claims| ==> claims[k] == claims[1..][k - 1];
      }
      if Discloses(claims, selected, credential) {
        assert Resolve(claims[0], credential) == Some(selected[0]);
        assert Discloses(claims[1..], selected[1..], credential);
      }
    }
  }

  lemma {:induction false} ResolveIdsIff(
    query: CredentialQuery, ids: seq<Text>, selected: seq<SelectedClaim>, credential: Credential)
    ensures ResolveIds(query, ids, credential) == Some(selected) <==> DisclosesIds(query, ids, selected, credential)
  {
    if ids == [] || selected == [] {
    } else {
      ResolveIdsIff(query, ids[1..], selected[1..], credential);
      assert selected == [selected[0]] + selected[1..];
      if ResolveIds(query, ids, credential) == Some(selected) {
        assert forall k :: 1 <= k < |ids| ==> ids[k] == ids[1..][k - 1];
      }
      if DisclosesIds(query, ids, selected, credential) {
        assert FindClaim(query.claims, ids[0]).Some?;
        assert DisclosesIds(query, ids[1..], selected[1..], credential);
      }
    }
  }

  /** Whether some disclosure answers the set of claim ids. */
  ghost predicate CanDisclose(query: CredentialQuery, ids: seq<Text>, credential: Credential) {
    exists selected :: DisclosesIds(query, ids, selected, credential)
  }

  /** The set at `k` is the first, in the verifier's order, that the credential can disclose. */
  ghost predicate PreferredSet(
    query: CredentialQuery, sets: seq<seq<Text>>, k: nat, selected: seq<SelectedClaim>, credential: Credential)
  {
    && k < |sets|
    && DisclosesIds(query, sets[k], selected, credential)
    && forall j :: 0 <= j < k ==> !CanDisclose(query, sets[j], credential)
  }

  lemma {:induction false} FirstSetIff(
    query: CredentialQuery, sets: seq<seq<Text>>, selected: seq<SelectedClaim>, credential: Credential)
    ensures FirstSet(query, sets, credential) == Some(selected) <==>
      exists k: nat :: PreferredSet(query, sets, k, selected, credential)
  {
    if sets == [] {
    } else {
      FirstSetIff(query, sets[1..], selected, credential);
      ResolveIdsIff(query, sets[0], selected, credential);
      var head := ResolveIds(query, sets[0], credential);
      if head.Some? {
        ResolveIdsIff(query, sets[0], head.value, credential);
        assert CanDisclose(query, sets[0], credential);
        assert head.value == selected ==> PreferredSet(query, sets, 0, selected, credential);
      } else {
        forall other ensures !DisclosesIds(query, sets[0], other, credential) {
          ResolveIdsIff(query, sets[0], other, credential);
        }
        if k: nat :| PreferredSet(query, sets[1..], k, selected, credential) {
          assert sets[k + 1] == sets[1..][k];
          assert forall j :: 1 <= j < k + 1 ==> sets[j] == sets[1..][j - 1];
          assert PreferredSet(query, sets, k + 1, selected, credential);
        }
        if k: nat :| PreferredSet(query, sets, k, selected, credential) {
          assert k > 0 && sets[k] == sets[1..][k - 1];
          assert forall j :: 0 <= j < k - 1 ==> sets[1..][j] == sets[j + 1];
          assert PreferredSet(query, sets[1..], k - 1, selected, credential);
        }
      }
    }
  }

  /**
   * The four cases of section 6.4.1: nothing asked discloses nothing; claims alone are all or nothing; with
   * sets, the verifier's first satisfiable preference wins; sets without claims match no credential.
   */
  lemma SelectClaimsIff(query: CredentialQuery, credential: Credential, selected: seq<SelectedClaim>)
    ensures SelectClaims(query, credential) == Some(selected) <==>
      if query.claims == [] then query.claimSets.None? && selected == []
      else if query.claimSets.None? then Discloses(query.claims, selected, credential)
      else exists k: nat :: PreferredSet(query, query.claimSets.value, k, selected, credential)
  {
    if query.claims != [] {
      match query.claimSets
      case None => ResolveAllIff(query.claims, selected, credential);
      case Some(sets) => FirstSetIff(query, sets, selected, credential);
    }
  }

  // ---- credentials ---------------------------------------------------------

  /** What the credential offers the query; `None` when binding, policy or claims disqualify it. */
  function Offer(query: CredentialQuery, credential: Credential, policy: Policy): Option<Candidate> {
    if query.requireHolderBinding && !credential.holderBound then None
    else if !policy(query, credential) then None
    else match SelectClaims(query, credential)
      case None => None
      case Some(claims) => Some(Candidate(credential.id, claims))
  }

  /** The offers of the held credentials, in wallet order. */
  function Candidates(query: CredentialQuery, held: seq<Credential>, policy: Policy): seq<Candidate> {
    if held == [] then []
    else
      var rest := Candidates(query, held[1..], policy);
      match Offer(query, held[0], policy)
      case None => rest
      case Some(candidate) => [candidate] + rest
  }

  /** The candidates are the qualified credentials, each at its place among them. */
  lemma {:induction false} CandidatesFollowTheWallet(query: CredentialQuery, a: seq<Credential>, b: seq<Credential>, policy: Policy)
    ensures Candidates(query, a + b, policy) == Candidates(query, a, policy) + Candidates(query, b, policy)
  {
    if a == [] {
      assert a + b == b;
    } else {
      assert (a + b)[1..] == a[1..] + b;
      CandidatesFollowTheWallet(query, a[1..], b, policy);
    }
  }

  lemma {:induction false} CandidateIff(query: CredentialQuery, held: seq<Credential>, policy: Policy, candidate: Candidate)
    ensures candidate in Candidates(query, held, policy) <==>
      exists i :: 0 <= i < |held| && Offer(query, held[i], policy) == Some(candidate)
  {
    if held == [] {
    } else {
      CandidateIff(query, held[1..], policy, candidate);
      if i :| 0 <= i < |held[1..]| && Offer(query, held[1..][i], policy) == Some(candidate) {
        assert held[i + 1] == held[1..][i];
      }
      if i :| 1 <= i < |held| && Offer(query, held[i], policy) == Some(candidate) {
        assert held[i] == held[1..][i - 1];
      }
    }
  }

  function Matches(queries: seq<CredentialQuery>, held: seq<Credential>, policy: Policy): (matches: seq<QueryMatch>)
    ensures |matches| == |queries|
  {
    seq(|queries|, i requires 0 <= i < |queries| =>
      QueryMatch(queries[i].id, Candidates(queries[i], held, policy), queries[i].multiple))
  }

  predicate OptionMet(matches: seq<QueryMatch>, option: seq<Text>) {
    forall id :: id in option ==> exists m :: m in matches && m.queryId == id && m.IsSatisfied()
  }

  predicate RequiredSetsMet(matches: seq<QueryMatch>, sets: seq<CredentialSetQuery>) {
    forall s :: s in sets && s.required ==> exists option :: option in s.options && OptionMet(matches, option)
  }

  function Execute(query: Query, held: seq<Credential>, policy: Policy): QueryResult {
    var matches := Matches(query.credentials, held, policy);
    if query.credentials == [] then QueryResult(matches, false, query.credentialSets)
    else
      var requiredMet := match query.credentialSets
        case None => forall m :: m in matches ==> m.IsSatisfied()
        case Some(sets) => RequiredSetsMet(matches, sets);
      var anythingToOffer := exists m :: m in matches && m.IsSatisfied();
      QueryResult(matches, requiredMet && anythingToOffer, query.credentialSets)
  }

  // ---- looking matches up by id --------------------------------------------

  /** No two matches answer one query id. */
  ghost predicate UniqueMatches(matches: seq<QueryMatch>) {
    forall i, j :: 0 <= i < j < |matches| ==> matches[i].queryId != matches[j].queryId
  }

  lemma ExecuteKeepsIdsUnique(query: Query, held: seq<Credential>, policy: Policy)
    requires UsableIds(query.credentials)
    ensures UniqueMatches(Execute(query, held, policy).matches)
  {
  }

  lemma {:induction false} FindIsFirst(matches: seq<QueryMatch>, id: Text)
    ensures FindMatch(matches, id).Some? <==> exists m :: m in matches && m.queryId == id
    ensures FindMatch(matches, id).Some? ==>
      FindMatch(matches, id).value in matches && FindMatch(matches, id).value.queryId == id
  {
    if matches == [] {
    } else {
      FindIsFirst(matches[1..], id);
    }
  }

  /** With unique ids, the lookup by id and the search for a satisfied match agree. */
  lemma FindIsSatisfiedOne(matches: seq<QueryMatch>, id: Text)
    requires UniqueMatches(matches)
    ensures (exists m :: m in matches && m.queryId == id && m.IsSatisfied())
       <==> (FindMatch(matches, id).Some? && FindMatch(matches, id).value.IsSatisfied())
  {
    FindIsFirst(matches, id);
  }
}
