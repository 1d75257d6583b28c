/** The ways to satisfy a whole request, cut to a limit group by group, and the count of the ways left out. */
module Combinations {
  import opened Bytes
  import opened Wrappers
  import opened Sequences
  import opened DcqlPath
  import opened DcqlQuery
  import opened DcqlEval
  import opened Odometer
  import opened Products

  /** Credentials presented together, and the purposes of the sets they satisfy, in set order. */
  datatype Combination = Combination(members: seq<Member>, purposes: seq<Json>)

  datatype Listing = Listing(combinations: seq<Combination>, dropped: Dropped)

  /** A required set: its purpose and its satisfiable options. */
  datatype Group = Group(purpose: Option<Json>, options: seq<seq<Text>>)

  predicate Satisfied(result: QueryResult, option: seq<Text>) {
    forall id :: id in option ==> result.Find(id).Some? && result.Find(id).value.IsSatisfied()
  }

  function SatisfiedOptions(result: QueryResult, options: seq<seq<Text>>): seq<seq<Text>> {
    if options == [] then []
    else (if Satisfied(result, options[0]) then [options[0]] else []) + SatisfiedOptions(result, options[1..])
  }

  function RequiredGroups(result: QueryResult, sets: seq<CredentialSetQuery>): seq<Group> {
    if sets == [] then []
    else
      (if sets[0].required then [Group(sets[0].purpose, SatisfiedOptions(result, sets[0].options))] else [])
      + RequiredGroups(result, sets[1..])
  }

  function MatchIds(matches: seq<QueryMatch>): (ids: seq<Text>)
    ensures |ids| == |matches|
  {
    seq(|matches|, i requires 0 <= i < |matches| => matches[i].queryId)
  }

  /** Without sets, one group of one option naming every query; with them, one group per required set. */
  function Groups(result: QueryResult): seq<Group> {
    match result.credentialSets
    case None => [Group(None, [MatchIds(result.matches)])]
    case Some(sets) => RequiredGroups(result, sets)
  }

  // ---- the simple form: every combination, unlimited -------------------------

  /** The ways of all options, options in order, each in odometer order. */
  ghost function WaysOf(result: QueryResult, options: seq<seq<Text>>): seq<seq<Member>> {
    if options == [] then [] else OptionWays(result, options[0]) + WaysOf(result, options[1..])
  }

  ghost function GroupWays(result: QueryResult, group: Group): seq<seq<Member>> {
    WaysOf(result, group.options)
  }

  function PurposeList(purpose: Option<Json>): seq<Json> {
    if purpose.Some? then [purpose.value] else []
  }

  function Joined(partial: Combination, members: seq<Member>, purpose: Option<Json>): Combination {
    Combination(partial.members + members, partial.purposes + PurposeList(purpose))
  }

  ghost function Extend(partial: Combination, ways: seq<seq<Member>>, purpose: Option<Json>): seq<Combination> {
    seq(|ways|, i requires 0 <= i < |ways| => Joined(partial, ways[i], purpose))
  }

  /** Depth first: every completion of `partial` by one way of each group. */
  ghost function Completions(result: QueryResult, partial: Combination, groups: seq<Group>): seq<Combination>
    decreases |groups|, 0, 0
  {
    if groups == [] then [partial]
    else AllCompletions(result, Extend(partial, GroupWays(result, groups[0]), groups[0].purpose), groups[1..])
  }

  ghost function AllCompletions(result: QueryResult, partials: seq<Combination>, groups: seq<Group>): seq<Combination>
    decreases |groups|, 1, |partials|
  {
    if partials == [] then []
    else Completions(result, partials[0], groups) + AllCompletions(result, partials[1..], groups)
  }

  const NOTHING := Combination([], [])

  ghost function Enumeration(result: QueryResult): seq<Combination> {
    if !result.satisfiable || Groups(result) == [] then [] else Completions(result, NOTHING, Groups(result))
  }

  // ---- one level at a time ---------------------------------------------------

  ghost function ExtendAll(partials: seq<Combination>, ways: seq<seq<Member>>, purpose: Option<Json>): seq<Combination> {
    if partials == [] then []
    else Extend(partials[0], ways, purpose) + ExtendAll(partials[1..], ways, purpose)
  }

  lemma {:induction false} ExtendAllAppend(a: seq<Combination>, b: seq<Combination>, ways: seq<seq<Member>>, purpose: Option<Json>)
    ensures ExtendAll(a + b, ways, purpose) == ExtendAll(a, ways, purpose) + ExtendAll(b, ways, purpose)
  {
    if a == [] {
      assert a + b == b;
    } else {
      assert (a + b)[1..] == a[1..] + b;
      ExtendAllAppend(a[1..], b, ways, purpose);
    }
  }

  lemma {:induction false} ExtendAllLength(partials: seq<Combination>, ways: seq<seq<Member>>, purpose: Option<Json>)
    ensures |ExtendAll(partials, ways, purpose)| == |ways| * |partials|
  {
    if partials == [] {
    } else {
      ExtendAllLength(partials[1..], ways, purpose);
      MulNext(|ways|, |partials| - 1);
    }
  }

  lemma {:induction false} AllCompletionsAppend(result: QueryResult, a: seq<Combination>, b: seq<Combination>, groups: seq<Group>)
    ensures AllCompletions(result, a + b, groups) == AllCompletions(result, a, groups) + AllCompletions(result, b, groups)
  {
    if a == [] {
      assert a + b == b;
    } else {
      assert (a + b)[1..] == a[1..] + b;
      AllCompletionsAppend(result, a[1..], b, groups);
    }
  }

  /** Completing all partials is completing their extensions by the first group. */
  lemma {:induction false} LevelByLevel(result: QueryResult, partials: seq<Combination>, groups: seq<Group>)
    requires groups != []
    ensures AllCompletions(result, partials, groups) ==
      AllCompletions(result, ExtendAll(partials, GroupWays(result, groups[0]), groups[0].purpose), groups[1..])
  {
    if partials == [] {
    } else {
      var ways, purpose := GroupWays(result, groups[0]), groups[0].purpose;
      LevelByLevel(result, partials[1..], groups);
      AllCompletionsAppend(result, Extend(partials[0], ways, purpose), ExtendAll(partials[1..], ways, purpose), groups[1..]);
    }
  }

  lemma {:induction false} CompletedAlready(result: QueryResult, partials: seq<Combination>)
    ensures AllCompletions(result, partials, []) == partials
    decreases |partials|
  {
    if partials == [] {
    } else {
      CompletedAlready(result, partials[1..]);
    }
  }

  /** The first `limit` extensions need only the first `limit` partials. */
  lemma CutBeforeExtending(level: seq<Combination>, ways: seq<seq<Member>>, purpose: Option<Json>, limit: nat)
    ensures Take(limit, ExtendAll(Take(limit, level), ways, purpose)) == Take(limit, ExtendAll(level, ways, purpose))
  {
    var kept := Take(limit, level);
    var rest := level[|kept|..];
    assert level == kept + rest;
    ExtendAllAppend(kept, rest, ways, purpose);
    ExtendAllLength(kept, ways, purpose);
    if rest != [] {
      if ways == [] {
        ExtendAllLength(level, ways, purpose);
      } else {
        MulMonotonic(|kept|, 1, |ways|);
      }
    }
  }

  // ---- what the limit leaves out -----------------------------------------------

  /** How many ways each group adds to one partial combination. */
  ghost function Widths(result: QueryResult, groups: seq<Group>): seq<nat> {
    seq(|groups|, i requires 0 <= i < |groups| => |GroupWays(result, groups[i])|)
  }

  /** The skips, summed over the groups: `partials` enter a group and at most `limit` leave it. */
  ghost function Skips(widths: seq<nat>, partials: nat, limit: nat): nat {
    if widths == [] || partials == 0 then 0
    else
      var reached := widths[0] * partials;
      reached - Min(limit, reached) + Skips(widths[1..], Min(limit, reached), limit)
  }

  ghost predicate OptionsFit(result: QueryResult, options: seq<seq<Text>>, most: nat) {
    forall i :: 0 <= i < |options| ==> |OptionWays(result, options[i])| <= most
  }

  lemma OptionsFitPush(result: QueryResult, options: seq<seq<Text>>, k: nat, most: nat)
    requires k < |options|
    ensures OptionsFit(result, options[..k + 1], most)
       <==> OptionsFit(result, options[..k], most) && |OptionWays(result, options[k])| <= most
  {
    assert forall i :: 0 <= i < k ==> options[..k + 1][i] == options[..k][i];
    assert options[..k + 1][k] == options[k];
  }

  /** Every option of every group that is entered has a countable number of ways. */
  ghost predicate AllFit(result: QueryResult, groups: seq<Group>, partials: nat, limit: nat, most: nat) {
    groups == [] || partials == 0
    || (OptionsFit(result, groups[0].options, most)
        && AllFit(result, groups[1..], Min(limit, |GroupWays(result, groups[0])| * partials), limit, most))
  }

  /**
   * `dropped` reports `count` skips: exactly when everything was countable, never too many, and when inexact still
   * all but `limit` of what `usize` can say.
   */
  ghost predicate Reports(dropped: Dropped, count: nat, countable: bool, limit: nat, most: nat) {
    && (dropped.Exact? <==> countable && count <= most)
    && (dropped.Exact? ==> dropped.count == count)
    && dropped.count <= Min(count, most)
    && (dropped.AtLeast? ==> dropped.count >= most - limit)
  }

  lemma ReportsAdd(a: Dropped, m: nat, f: bool, b: Dropped, n: nat, g: bool, limit: nat, most: nat)
    requires Reports(a, m, f, limit, most) && Reports(b, n, g, limit, most)
    ensures Reports(a.Add(b, most), m + n, f && g, limit, most)
  {
  }

  ghost function SkipsOf(result: QueryResult, limit: nat): nat {
    if !result.satisfiable then 0 else Skips(Widths(result, Groups(result)), 1, limit)
  }

  ghost predicate Countable(result: QueryResult, limit: nat, most: nat) {
    result.satisfiable ==> AllFit(result, Groups(result), 1, limit, most)
  }

  lemma WaysOfPush(result: QueryResult, options: seq<seq<Text>>, k: nat)
    requires k < |options|
    ensures WaysOf(result, options[..k + 1]) == WaysOf(result, options[..k]) + OptionWays(result, options[k])
  {
    if k == 0 {
      assert options[..1][1..] == [] && options[..0] == [];
    } else {
      WaysOfPush(result, options[1..], k - 1);
      assert options[..k + 1][1..] == options[1..][..k] && options[..k][1..] == options[1..][..k - 1];
    }
  }

  // ---- the algorithm -----------------------------------------------------------

  /** Joins the partial with each product, in order. */
  method JoinAll(partial: Combination, products: seq<seq<Member>>, purpose: Option<Json>, next: seq<Combination>)
    returns (longer: seq<Combination>)
    ensures longer == next + Extend(partial, products, purpose)
  {
    longer := next;
    for i := 0 to |products|
      invariant longer == next + Extend(partial, products, purpose)[..i]
    {
      longer := longer + [Joined(partial, products[i], purpose)];
    }
  }

  /** What still fits of a longer list of ways. */
  lemma CutAppend(done: seq<Combination>, partial: Combination, ways: seq<seq<Member>>, purpose: Option<Json>, limit: nat)
    ensures var next := Take(limit, done);
      Take(limit, done + Extend(partial, ways, purpose))
      == next + Extend(partial, Take(limit - |next|, ways), purpose)
  {
    TakeAppend(limit, done, Extend(partial, ways, purpose));
  }

  lemma ExtendAppend(partial: Combination, a: seq<seq<Member>>, b: seq<seq<Member>>, purpose: Option<Json>)
    ensures Extend(partial, a + b, purpose) == Extend(partial, a, purpose) + Extend(partial, b, purpose)
  {
  }

  /** Sums the accounting of two consecutive steps of the enumeration. */
  ghost function Missing(all: seq<Combination>, built: seq<Combination>): int {
    |all| - |built|
  }

  /** One partial through one option: `done` is what an unlimited pass would have built so far. */
  method ExtendByOption(
    result: QueryResult, partial: Combination, option: seq<Text>, purpose: Option<Json>, limit: nat, most: nat,
    before: seq<Combination>, tally: Dropped, ghost done: seq<Combination>, ghost count: nat, ghost countable: bool)
    returns (next: seq<Combination>, dropped: Dropped, ghost skips: nat)
    requires 1 <= most && limit <= most
    requires before == Take(limit, done) && Reports(tally, count, countable, limit, most)
    ensures next == Take(limit, done + Extend(partial, OptionWays(result, option), purpose))
    ensures skips == Missing(done + Extend(partial, OptionWays(result, option), purpose), next) - Missing(done, before)
    ensures Reports(dropped, count + skips, countable && |OptionWays(result, option)| <= most, limit, most)
  {
    ghost var ways := OptionWays(result, option);
    var budget := limit - |before|;
    var products, skipped := CandidateProducts(result, option, budget, most);
    skips := |ways| - |products|;
    ReportsAdd(tally, count, countable, skipped, skips, |ways| <= most, limit, most);
    dropped := tally.Add(skipped, most);
    CutAppend(done, partial, ways, purpose, limit);
    next := JoinAll(partial, products, purpose, before);
  }

  /** `done`, then the partial through the first `k` options of the group. */
  ghost function After(
    result: QueryResult, done: seq<Combination>, partial: Combination, group: Group, k: nat): seq<Combination>
    requires k <= |group.options|
  {
    done + Extend(partial, WaysOf(result, group.options[..k]), group.purpose)
  }

  lemma AfterPush(result: QueryResult, done: seq<Combination>, partial: Combination, group: Group, k: nat)
    requires k < |group.options|
    ensures After(result, done, partial, group, k + 1)
         == After(result, done, partial, group, k)
            + Extend(partial, OptionWays(result, group.options[k]), group.purpose)
  {
    WaysOfPush(result, group.options, k);
    ExtendAppend(partial, WaysOf(result, group.options[..k]), OptionWays(result, group.options[k]), group.purpose);
  }

  lemma AfterAll(result: QueryResult, done: seq<Combination>, partial: Combination, group: Group)
    ensures After(result, done, partial, group, 0) == done
    ensures After(result, done, partial, group, |group.options|)
         == done + Extend(partial, GroupWays(result, group), group.purpose)
  {
    assert group.options[..|group.options|] == group.options;
  }

  /** One partial through one group, options in order. */
  method ExtendPartial(
    result: QueryResult, partial: Combination, group: Group, limit: nat, most: nat,
    before: seq<Combination>, tally: Dropped, ghost done: seq<Combination>, ghost count: nat, ghost countable: bool)
    returns (next: seq<Combination>, dropped: Dropped, ghost skips: nat)
    requires 1 <= most && limit <= most
    requires before == Take(limit, done) && Reports(tally, count, countable, limit, most)
    ensures next == Take(limit, done + Extend(partial, GroupWays(result, group), group.purpose))
    ensures skips == Missing(done + Extend(partial, GroupWays(result, group), group.purpose), next) - Missing(done, before)
    ensures Reports(dropped, count + skips, countable && OptionsFit(result, group.options, most), limit, most)
  {
    hide Extend, WaysOf, OptionWays, GroupWays, After, Take, Reports;
    next, dropped, skips := before, tally, 0;
    ghost var fits := countable;
    AfterAll(result, done, partial, group);
    for k := 0 to |group.options|
      invariant next == Take(limit, After(result, done, partial, group, k))
      invariant skips == Missing(After(result, done, partial, group, k), next) - Missing(done, before)
      invariant fits == (countable && OptionsFit(result, group.options[..k], most))
      invariant Reports(dropped, count + skips, fits, limit, most)
    {
      ghost var more;
      next, dropped, more := ExtendByOption(result, partial, group.options[k], group.purpose, limit, most,
        next, dropped, After(result, done, partial, group, k), count + skips, fits);
      AfterPush(result, done, partial, group, k);
      OptionsFitPush(result, group.options, k, most);
      skips, fits := skips + more, fits && |OptionWays(result, group.options[k])| <= most;
    }
    assert group.options[..|group.options|] == group.options;
  }

  lemma ExtendAllPush(partials: seq<Combination>, k: nat, ways: seq<seq<Member>>, purpose: Option<Json>)
    requires k < |partials|
    ensures ExtendAll(partials[..k + 1], ways, purpose)
         == ExtendAll(partials[..k], ways, purpose) + Extend(partials[k], ways, purpose)
  {
    assert partials[..k + 1] == partials[..k] + [partials[k]];
    ExtendAllAppend(partials[..k], [partials[k]], ways, purpose);
    assert [partials[k]][1..] == [];
  }

  /** Every partial through one group. */
  method ExtendLevel(
    result: QueryResult, out: seq<Combination>, group: Group, limit: nat, most: nat,
    tally: Dropped, ghost count: nat, ghost countable: bool)
    returns (next: seq<Combination>, dropped: Dropped, ghost skips: nat)
    requires 1 <= most && limit <= most
    requires Reports(tally, count, countable, limit, most)
    ensures next == Take(limit, ExtendAll(out, GroupWays(result, group), group.purpose))
    ensures skips == Missing(ExtendAll(out, GroupWays(result, group), group.purpose), next)
    ensures Reports(dropped, count + skips, countable && (out == [] || OptionsFit(result, group.options, most)), limit, most)
  {
    hide Reports;
    next, dropped, skips := [], tally, 0;
    ghost var ways, fits := GroupWays(result, group), countable;
    for i := 0 to |out|
      invariant next == Take(limit, ExtendAll(out[..i], ways, group.purpose))
      invariant skips == Missing(ExtendAll(out[..i], ways, group.purpose), next)
      invariant fits == (countable && (i == 0 || OptionsFit(result, group.options, most)))
      invariant Reports(dropped, count + skips, fits, limit, most)
    {
      ghost var more;
      next, dropped, more := ExtendPartial(result, out[i], group, limit, most,
        next, dropped, ExtendAll(out[..i], ways, group.purpose), count + skips, fits);
      ExtendAllPush(out, i, ways, group.purpose);
      skips, fits := skips + more, fits && OptionsFit(result, group.options, most);
    }
    assert out[..|out|] == out;
  }

  /** Where the enumeration stands before group `k`, had nothing been cut. */
  ghost function Level(result: QueryResult, groups: seq<Group>, k: nat): seq<Combination>
    requires k <= |groups|
  {
    if k == 0 then [NOTHING]
    else ExtendAll(Level(result, groups, k - 1), GroupWays(result, groups[k - 1]), groups[k - 1].purpose)
  }

  lemma {:induction false} LevelCompletes(result: QueryResult, groups: seq<Group>, k: nat)
    requires k <= |groups|
    ensures AllCompletions(result, Level(result, groups, k), groups[k..]) == Completions(result, NOTHING, groups)
  {
    if k == 0 {
      assert groups[0..] == groups;
      assert AllCompletions(result, [NOTHING], groups) == Completions(result, NOTHING, groups) + AllCompletions(result, [], groups);
    } else {
      LevelCompletes(result, groups, k - 1);
      LevelByLevel(result, Level(result, groups, k - 1), groups[k - 1..]);
      assert groups[k - 1..][1..] == groups[k..];
    }
  }

  /** The levels, cut to the limit, are what the algorithm holds. */
  ghost function Held(result: QueryResult, groups: seq<Group>, k: nat, limit: nat): seq<Combination>
    requires k <= |groups|
  {
    if k == 0 then [NOTHING] else Take(limit, Level(result, groups, k))
  }

  lemma HeldNext(result: QueryResult, groups: seq<Group>, k: nat, limit: nat)
    requires k < |groups|
    ensures Held(result, groups, k + 1, limit)
         == Take(limit, ExtendAll(Held(result, groups, k, limit), GroupWays(result, groups[k]), groups[k].purpose))
  {
    assert Level(result, groups, k + 1) ==
      ExtendAll(Level(result, groups, k), GroupWays(result, groups[k]), groups[k].purpose);
    if k > 0 {
      CutBeforeExtending(Level(result, groups, k), GroupWays(result, groups[k]), groups[k].purpose, limit);
    }
  }

  /** Once nothing is held before the end, nothing within the limit remains to be built. */
  lemma HeldFinally(result: QueryResult, groups: seq<Group>, k: nat, limit: nat)
    requires 0 < k <= |groups|
    requires k == |groups| || Held(result, groups, k, limit) == []
    ensures Held(result, groups, k, limit) == Take(limit, Completions(result, NOTHING, groups))
  {
    LevelCompletes(result, groups, k);
    if k == |groups| {
      CompletedAlready(result, Level(result, groups, k));
    }
  }

  /** The skips and the countability still to come, when `partials` combinations are about to enter group `k`. */
  ghost function SkipsAhead(result: QueryResult, groups: seq<Group>, k: nat, partials: nat, limit: nat): nat
    requires k <= |groups|
  {
    Skips(Widths(result, groups[k..]), partials, limit)
  }

  ghost predicate FitsAhead(result: QueryResult, groups: seq<Group>, k: nat, partials: nat, limit: nat, most: nat)
    requires k <= |groups|
  {
    AllFit(result, groups[k..], partials, limit, most)
  }

  /** What `ExtendLevel` builds from the held combinations is held next, and is accounted for. */
  lemma HeldStep(
    result: QueryResult, groups: seq<Group>, k: nat, out: seq<Combination>, next: seq<Combination>, skips: nat,
    limit: nat, most: nat)
    requires k < |groups| && out != [] && out == Held(result, groups, k, limit)
    requires next == Take(limit, ExtendAll(out, GroupWays(result, groups[k]), groups[k].purpose))
    requires skips == Missing(ExtendAll(out, GroupWays(result, groups[k]), groups[k].purpose), next)
    ensures next == Held(result, groups, k + 1, limit)
    ensures SkipsAhead(result, groups, k, |out|, limit) == skips + SkipsAhead(result, groups, k + 1, |next|, limit)
    ensures FitsAhead(result, groups, k, |out|, limit, most)
       <==> OptionsFit(result, groups[k].options, most) && FitsAhead(result, groups, k + 1, |next|, limit, most)
  {
    hide ExtendAll, GroupWays, Level, OptionsFit, Held;
    HeldNext(result, groups, k, limit);
    ExtendAllLength(out, GroupWays(result, groups[k]), groups[k].purpose);
    assert groups[k..][1..] == groups[k + 1..];
    assert Widths(result, groups[k..])[1..] == Widths(result, groups[k + 1..]);
  }

  lemma HeldStart(result: QueryResult, groups: seq<Group>, limit: nat, most: nat)
    ensures Held(result, groups, 0, limit) == [NOTHING] && Reports(Exact(0), 0, true, limit, most)
  {
  }

  lemma NothingAhead(result: QueryResult, groups: seq<Group>, k: nat, partials: nat, limit: nat, most: nat)
    requires k <= |groups| && (k == |groups| || partials == 0)
    ensures SkipsAhead(result, groups, k, partials, limit) == 0 && FitsAhead(result, groups, k, partials, limit, most)
  {
  }

  /** The loop over the groups, which ends early once nothing is held. */
  method EnumerateGroups(result: QueryResult, groups: seq<Group>, limit: nat, most: nat)
    returns (out: seq<Combination>, dropped: Dropped, ghost k: nat)
    requires groups != [] && 1 <= most && limit <= most
    ensures 0 < k <= |groups| && out == Held(result, groups, k, limit) && (k == |groups| || out == [])
    ensures Reports(dropped, SkipsAhead(result, groups, 0, 1, limit), FitsAhead(result, groups, 0, 1, limit, most), limit, most)
  {
    hide *;
    HeldStart(result, groups, limit, most);
    out, dropped, k := [NOTHING], Exact(0), 0;
    ghost var fits := true;
    ghost var count: nat := 0;
    for j := 0 to |groups|
      invariant k == j
      invariant out == Held(result, groups, k, limit) && (k < |groups| ==> out != [])
      invariant Reports(dropped, count, fits, limit, most)
      invariant count + SkipsAhead(result, groups, k, |out|, limit) == SkipsAhead(result, groups, 0, 1, limit)
      invariant fits && FitsAhead(result, groups, k, |out|, limit, most) <==> FitsAhead(result, groups, 0, 1, limit, most)
    {
      ghost var skips;
      var next;
      next, dropped, skips := ExtendLevel(result, out, groups[j], limit, most, dropped, count, fits);
      HeldStep(result, groups, k, out, next, skips, limit, most);
      out := next;
      count, fits := count + skips, fits && OptionsFit(result, groups[k].options, most);
      k := k + 1;
      if out == [] {
        break;
      }
    }
    NothingAhead(result, groups, k, |out|, limit, most);
  }

  /**
   * A prefix of the unlimited enumeration, `limit` long at most, and the sum of what every cut of a level
   * skipped. `most` is the largest `usize`.
   */
  method Enumerate(result: QueryResult, limit: nat, most: nat) returns (listing: Listing)
    requires 1 <= most && limit <= most
    ensures listing.combinations == Take(limit, Enumeration(result))
    ensures Reports(listing.dropped, SkipsOf(result, limit), Countable(result, limit, most), limit, most)
  {
    if !result.satisfiable {
      return Listing([], Exact(0));
    }
    var groups := Groups(result);
    if groups == [] {
      return Listing([], Exact(0));
    }
    assert groups[0..] == groups;
    var out, dropped;
    ghost var k;
    out, dropped, k := EnumerateGroups(result, groups, limit, most);
    HeldFinally(result, groups, k, limit);
    listing := Listing(out, dropped);
  }
}
