/** The DCQL query model (OpenID4VP 1.0, section 6) and the validation of its identifiers. */
module DcqlQuery {
  import opened Bytes
  import opened Wrappers
  import opened Sequences
  import opened DcqlPath

  datatype ClaimsQuery = ClaimsQuery(id: Option<Text>, path: Path, values: Option<seq<Json>>)

  datatype CredentialQuery = CredentialQuery(
    id: Text,
    format: Text,
    multiple: bool,
    meta: map<Text, Json>,
    requireHolderBinding: bool,
    claims: seq<ClaimsQuery>,
    claimSets: Option<seq<seq<Text>>>)

  datatype CredentialSetQuery = CredentialSetQuery(
    options: seq<seq<Text>>,
    required: bool,
    purpose: Option<Json>)

  datatype Query = Query(
    credentials: seq<CredentialQuery>,
    credentialSets: Option<seq<CredentialSetQuery>>)

  datatype QueryError =
    | EmptyCredentialId
    | DuplicateCredentialId(id: Text)
    | DuplicateClaimId(credential: Text, claim: Text)

  /** The ids the claims queries carry, in order. */
  function ClaimIds(claims: seq<ClaimsQuery>): seq<Text> {
    if claims == [] then []
    else (if claims[0].id.Some? then [claims[0].id.value] else []) + ClaimIds(claims[1..])
  }

  lemma DistinctPush(ids: seq<Text>, k: nat)
    requires k < |ids| && Distinct(ids[..k])
    ensures ids[k] !in ids[..k] ==> Distinct(ids[..k + 1])
    ensures ids[k] in ids[..k] ==> !Distinct(ids) && FirstRepeat(ids, ids[k])
  {
    assert forall i :: 0 <= i < k ==> ids[..k][i] == ids[i];
  }

  /** `id` is the first of `ids` to repeat an earlier one. */
  ghost predicate FirstRepeat(ids: seq<Text>, id: Text) {
    exists k :: 0 <= k < |ids| && ids[k] == id && id in ids[..k] && Distinct(ids[..k])
  }

  /** Every id is non-empty and names one query; every claim id names one claim of its query. */
  ghost predicate UsableIds(credentials: seq<CredentialQuery>) {
    && (forall i :: 0 <= i < |credentials| ==> credentials[i].id != [] && Distinct(ClaimIds(credentials[i].claims)))
    && (forall i, j :: 0 <= i < j < |credentials| ==> credentials[i].id != credentials[j].id)
  }

  ghost predicate RepeatsClaimId(query: CredentialQuery, error: QueryError) {
    error.DuplicateClaimId? && error.credential == query.id && FirstRepeat(ClaimIds(query.claims), error.claim)
  }

  /** The scan of `validate_claim_ids` over the ids that are present. */
  method ScanIds(ids: seq<Text>) returns (repeated: Option<Text>)
    ensures repeated.None? <==> Distinct(ids)
    ensures repeated.Some? ==> FirstRepeat(ids, repeated.value)
  {
    var seen: set<Text> := {};
    for k := 0 to |ids|
      invariant seen == set id | id in ids[..k]
      invariant Distinct(ids[..k])
    {
      DistinctPush(ids, k);
      if ids[k] in seen {
        return Some(ids[k]);
      }
      seen := seen + {ids[k]};
    }
    assert ids[..|ids|] == ids;
    return None;
  }

  method ValidateClaimIds(query: CredentialQuery) returns (r: Result<(), QueryError>)
    ensures r.Ok? <==> Distinct(ClaimIds(query.claims))
    ensures r.Err? ==> RepeatsClaimId(query, r.error)
  {
    var repeated := ScanIds(ClaimIds(query.claims));
    match repeated
    case None => return Ok(());
    case Some(id) => return Err(DuplicateClaimId(query.id, id));
  }

  /** The first query, in order, whose id is empty, repeated, or repeats a claim id names the error. */
  ghost predicate FirstUnusable(credentials: seq<CredentialQuery>, error: QueryError) {
    exists k :: 0 <= k < |credentials| && UsableIds(credentials[..k]) &&
      var query := credentials[k];
      if query.id == [] then error == EmptyCredentialId
      else if exists j :: 0 <= j < k && credentials[j].id == query.id then error == DuplicateCredentialId(query.id)
      else RepeatsClaimId(query, error)
  }

  method Validate(query: Query) returns (r: Result<(), QueryError>)
    ensures r.Ok? <==> UsableIds(query.credentials)
    ensures r.Err? ==> FirstUnusable(query.credentials, r.error)
  {
    var seen: set<Text> := {};
    var credentials := query.credentials;
    for k := 0 to |credentials|
      invariant seen == set j | 0 <= j < k :: credentials[j].id
      invariant UsableIds(credentials[..k])
    {
      var credential := credentials[k];
      if credential.id == [] {
        assert FirstUnusable(credentials, EmptyCredentialId);
        return Err(EmptyCredentialId);
      }
      if credential.id in seen {
        assert FirstUnusable(credentials, DuplicateCredentialId(credential.id));
        return Err(DuplicateCredentialId(credential.id));
      }
      seen := seen + {credential.id};
      var claims := ValidateClaimIds(credential);
      if claims.Err? {
        assert FirstUnusable(credentials, claims.error);
        return claims;
      }
    }
    assert credentials[..|credentials|] == credentials;
    return Ok(());
  }

  /** The first claims query with the id. */
  function FindClaim(claims: seq<ClaimsQuery>, id: Text): Option<ClaimsQuery> {
    if claims == [] then None
    else if claims[0].id == Some(id) then Some(claims[0])
    else FindClaim(claims[1..], id)
  }

  lemma {:induction false} HasClaimId(claims: seq<ClaimsQuery>, claim: ClaimsQuery)
    requires claim in claims && claim.id.Some?
    ensures claim.id.value in ClaimIds(claims)
  {
    if claims[0] == claim {
    } else {
      HasClaimId(claims[1..], claim);
    }
  }

  /** Once ids are distinct, a claim id names exactly the claims query that carries it. */
  lemma {:induction false} ClaimIsUnambiguous(claims: seq<ClaimsQuery>, claim: ClaimsQuery)
    requires Distinct(ClaimIds(claims))
    requires claim.id.Some?
    ensures FindClaim(claims, claim.id.value) == Some(claim) <==> claim in claims
  {
    if claims == [] {
    } else {
      var ids, tail := ClaimIds(claims), ClaimIds(claims[1..]);
      assert Distinct(tail) by {
        forall i, j | 0 <= i < j < |tail| ensures tail[i] != tail[j] {
          assert ids[|ids| - |tail| + i] == tail[i] && ids[|ids| - |tail| + j] == tail[j];
        }
      }
      assert claims[0].id.Some? ==> claims[0].id.value !in tail by {
        if claims[0].id.Some? {
          assert ids == [claims[0].id.value] + tail;
          forall i | 0 <= i < |tail| ensures tail[i] != claims[0].id.value {
            assert ids[0] != ids[1 + i];
          }
        }
      }
      ClaimIsUnambiguous(claims[1..], claim);
      if claims[0].id == claim.id && claim in claims[1..] {
        HasClaimId(claims[1..], claim);
        assert false;
      }
    }
  }
}
