/** When the enumeration lists a combination twice. */
module CombinationRepeats {
  import opened Bytes
  import opened Wrappers
  import opened Sequences
  import opened DcqlPath
  import opened DcqlQuery
  import opened DcqlEval
  import opened Odometer
  import opened Products
  import opened Combinations
  import opened CombinationFacts
  import opened CombinationCounts

  // ---- all pairs, in two orders --------------------------------------------------

  /** Each of `ys` behind `x`. */
  function Behind<T>(x: seq<T>, ys: seq<seq<T>>): seq<seq<T>> {
    seq(|ys|, j requires 0 <= j < |ys| => x + ys[j])
  }

  /** Each of `xs` ahead of `y`. */
  function Ahead<T>(xs: seq<seq<T>>, y: seq<T>): seq<seq<T>> {
    seq(|xs|, i requires 0 <= i < |xs| => xs[i] + y)
  }

  /** Every pair joined, the first slowest. */
  function Cross<T>(xs: seq<seq<T>>, ys: seq<seq<T>>): seq<seq<T>> {
    if xs == [] then [] else Behind(xs[0], ys) + Cross(xs[1..], ys)
  }

  /** Every pair joined, the first fastest. */
  function Spun<T>(xs: seq<seq<T>>, ys: seq<seq<T>>): seq<seq<T>> {
    if ys == [] then [] else Ahead(xs, ys[0]) + Spun(xs, ys[1..])
  }

  lemma {:induction false} CrossAppend<T>(a: seq<seq<T>>, b: seq<seq<T>>, ys: seq<seq<T>>)
    ensures Cross(a + b, ys) == Cross(a, ys) + Cross(b, ys)
  {
    if a == [] {
      assert a + b == b;
    } else {
      assert (a + b)[1..] == a[1..] + b;
      CrossAppend(a[1..], b, ys);
    }
  }

  lemma {:induction false} SpunAppend<T>(xs: seq<seq<T>>, a: seq<seq<T>>, b: seq<seq<T>>)
    ensures Spun(xs, a + b) == Spun(xs, a) + Spun(xs, b)
  {
    if a == [] {
      assert a + b == b;
    } else {
      assert (a + b)[1..] == a[1..] + b;
      SpunAppend(xs, a[1..], b);
    }
  }

  lemma {:induction false} AheadOfSpun<T>(xs: seq<seq<T>>, ys: seq<seq<T>>, z: seq<T>)
    ensures Ahead(Spun(xs, ys), z) == Spun(xs, Ahead(ys, z))
  {
    if ys == [] {
    } else {
      AheadOfSpun(xs, ys[1..], z);
      assert Ahead(ys, z)[1..] == Ahead(ys[1..], z);
      assert Ahead(Ahead(xs, ys[0]) + Spun(xs, ys[1..]), z) == Ahead(Ahead(xs, ys[0]), z) + Ahead(Spun(xs, ys[1..]), z);
      forall i | 0 <= i < |xs| ensures Ahead(Ahead(xs, ys[0]), z)[i] == Ahead(xs, ys[0] + z)[i] {
        AppendAssociates(xs[i], ys[0], z);
      }
      assert Ahead(Ahead(xs, ys[0]), z) == Ahead(xs, ys[0] + z);
    }
  }

  lemma {:induction false} SpunAssociates<T>(xs: seq<seq<T>>, ys: seq<seq<T>>, zs: seq<seq<T>>)
    ensures Spun(Spun(xs, ys), zs) == Spun(xs, Spun(ys, zs))
  {
    if zs == [] {
    } else {
      SpunAssociates(xs, ys, zs[1..]);
      AheadOfSpun(xs, ys, zs[0]);
      SpunAppend(xs, Ahead(ys, zs[0]), Spun(ys, zs[1..]));
    }
  }

  lemma {:induction false} SpunFirst<T>(x: seq<T>, xs: seq<seq<T>>, ys: seq<seq<T>>)
    ensures multiset(Spun([x] + xs, ys)) == multiset(Behind(x, ys)) + multiset(Spun(xs, ys))
  {
    if ys == [] {
    } else {
      SpunFirst(x, xs, ys[1..]);
      assert Ahead([x] + xs, ys[0]) == [x + ys[0]] + Ahead(xs, ys[0]);
      assert Behind(x, ys) == [x + ys[0]] + Behind(x, ys[1..]);
    }
  }

  /** Both orders list the same. */
  lemma {:induction false} CrossIsSpun<T>(xs: seq<seq<T>>, ys: seq<seq<T>>)
    ensures multiset(Cross(xs, ys)) == multiset(Spun(xs, ys))
  {
    if xs == [] {
      NoneSpun(ys);
    } else {
      CrossIsSpun(xs[1..], ys);
      SpunFirst(xs[0], xs[1..], ys);
      assert [xs[0]] + xs[1..] == xs;
    }
  }

  lemma {:induction false} NoneSpun<T>(ys: seq<seq<T>>)
    ensures Spun([], ys) == []
  {
    if ys == [] {
    } else {
      NoneSpun(ys[1..]);
    }
  }

  lemma {:induction false} CountBehind<T>(x: seq<T>, ys: seq<seq<T>>, w: seq<T>)
    ensures multiset(Behind(x, ys))[w] == if x <= w then multiset(ys)[w[|x|..]] else 0
  {
    if ys == [] {
    } else {
      CountBehind(x, ys[1..], w);
      assert ys == [ys[0]] + ys[1..];
      assert Behind(x, ys) == [x + ys[0]] + Behind(x, ys[1..]);
      assert x <= w ==> w == x + w[|x|..];
      assert (x + ys[0])[|x|..] == ys[0];
    }
  }

  lemma BehindReordered<T(!new)>(x: seq<T>, ys: seq<seq<T>>, zs: seq<seq<T>>)
    requires multiset(ys) == multiset(zs)
    ensures multiset(Behind(x, ys)) == multiset(Behind(x, zs))
  {
    forall w ensures multiset(Behind(x, ys))[w] == multiset(Behind(x, zs))[w] {
      CountBehind(x, ys, w);
      CountBehind(x, zs, w);
    }
  }

  lemma {:induction false} CrossReordered<T(!new)>(xs: seq<seq<T>>, ys: seq<seq<T>>, zs: seq<seq<T>>)
    requires multiset(ys) == multiset(zs)
    ensures multiset(Cross(xs, ys)) == multiset(Cross(xs, zs))
  {
    if xs == [] {
    } else {
      BehindReordered(xs[0], ys, zs);
      CrossReordered(xs[1..], ys, zs);
    }
  }

  lemma {:induction false} CrossSplits<T>(xs: seq<seq<T>>, a: seq<seq<T>>, b: seq<seq<T>>)
    ensures multiset(Cross(xs, a + b)) == multiset(Cross(xs, a)) + multiset(Cross(xs, b))
  {
    if xs == [] {
    } else {
      CrossSplits(xs[1..], a, b);
      assert Behind(xs[0], a + b) == Behind(xs[0], a) + Behind(xs[0], b);
    }
  }

  lemma {:induction false} CrossNone<T>(xs: seq<seq<T>>)
    ensures Cross(xs, []) == [] && Cross(xs, [[]]) == xs
  {
    if xs == [] {
    } else {
      CrossNone(xs[1..]);
      assert xs[0] + [] == xs[0];
      assert Behind<T>(xs[0], [[]]) == [xs[0]] && Behind<T>(xs[0], []) == [];
    }
  }

  lemma {:induction false} InCross<T>(xs: seq<seq<T>>, ys: seq<seq<T>>, w: seq<T>)
    ensures w in Cross(xs, ys) <==> exists x, y :: x in xs && y in ys && w == x + y
  {
    if xs == [] {
    } else {
      InCross(xs[1..], ys, w);
      if y :| y in ys && w == xs[0] + y {
        var j :| 0 <= j < |ys| && ys[j] == y;
        assert Behind(xs[0], ys)[j] == w;
      }
    }
  }

  // ---- no element twice ------------------------------------------------------------

  ghost predicate Disjoint<T(!new)>(a: seq<T>, b: seq<T>) {
    forall x :: x in a ==> x !in b
  }

  lemma DistinctAppend<T(!new)>(a: seq<T>, b: seq<T>)
    ensures Distinct(a + b) <==> Distinct(a) && Distinct(b) && Disjoint(a, b)
  {
    var s := a + b;
    if Distinct(s) {
      forall i, j | 0 <= i < j < |a| ensures a[i] != a[j] {
        assert s[i] == a[i] && s[j] == a[j];
      }
      forall i, j | 0 <= i < j < |b| ensures b[i] != b[j] {
        assert s[|a| + i] == b[i] && s[|a| + j] == b[j];
      }
    }
    if x :| x in a && x in b {
      var i :| 0 <= i < |a| && a[i] == x;
      var j :| 0 <= j < |b| && b[j] == x;
      assert s[i] == s[|a| + j];
    }
    if Distinct(a) && Distinct(b) && Disjoint(a, b) {
      forall i, j | 0 <= i < j < |s| ensures s[i] != s[j] {
        if i < |a| <= j {
          assert s[i] in a && s[j] == b[j - |a|];
        } else if i >= |a| {
          assert s[i] == b[i - |a|] && s[j] == b[j - |a|];
        }
      }
    }
  }

  lemma {:induction false} DistinctByCount<T(!new)>(s: seq<T>)
    ensures Distinct(s) <==> forall x :: multiset(s)[x] <= 1
  {
    if s == [] {
    } else {
      var first, rest := [s[0]], s[1..];
      assert s == first + rest;
      DistinctByCount(rest);
      DistinctAppend(first, rest);
      assert multiset(s) == multiset(first) + multiset(rest);
      assert multiset(s)[s[0]] == 1 + multiset(rest)[s[0]];
      assert s[0] in rest <==> s[0] in multiset(rest);
      assert forall x :: x != s[0] ==> multiset(s)[x] == multiset(rest)[x];
    }
  }

  /** The same elements in another order. */
  lemma DistinctReordered<T(!new)>(a: seq<T>, b: seq<T>)
    requires multiset(a) == multiset(b)
    ensures Distinct(a) <==> Distinct(b)
  {
    DistinctByCount(a);
    DistinctByCount(b);
  }

  // ---- an option made of two -------------------------------------------------------

  function Shown(wheel: Wheel): seq<seq<Member>> {
    seq(wheel.Width(), d requires 0 <= d < wheel.Width() => wheel.At(d))
  }

  lemma {:induction false} SpinIsSpun(wheel: Wheel, tails: seq<seq<Member>>)
    ensures Concat(Spin(wheel, tails)) == Spun(Shown(wheel), tails)
  {
    if tails == [] {
    } else {
      SpinIsSpun(wheel, tails[1..]);
      assert Spin(wheel, tails)[1..] == Spin(wheel, tails[1..]);
      assert SpinBefore(wheel, tails[0]) == Ahead(Shown(wheel), tails[0]);
    }
  }

  lemma {:induction false} ProductAppend(a: seq<Wheel>, b: seq<Wheel>)
    ensures Product(a + b) == Spun(Product(a), Product(b))
  {
    if a == [] {
      assert a + b == b;
      SpunNothing(Product(b));
    } else {
      assert (a + b)[1..] == a[1..] + b;
      ProductAppend(a[1..], b);
      SpinIsSpun(a[0], Product(a[1..] + b));
      SpinIsSpun(a[0], Product(a[1..]));
      SpunAssociates(Shown(a[0]), Product(a[1..]), Product(b));
    }
  }

  lemma {:induction false} SpunNothing<T>(ys: seq<seq<T>>)
    ensures Spun([[]], ys) == ys
  {
    if ys == [] {
    } else {
      SpunNothing(ys[1..]);
      assert [] + ys[0] == ys[0];
      assert Ahead<T>([[]], ys[0]) == [ys[0]];
    }
  }

  lemma {:induction false} WheelsAppend(result: QueryResult, a: seq<Text>, b: seq<Text>)
    requires WheelsOf(result, a).Some? && WheelsOf(result, b).Some?
    ensures WheelsOf(result, a + b) == Some(WheelsOf(result, a).value + WheelsOf(result, b).value)
  {
    if a == [] {
      assert a + b == b && WheelsOf(result, a).value + WheelsOf(result, b).value == WheelsOf(result, b).value;
    } else {
      assert (a + b)[1..] == a[1..] + b;
      WheelsAppend(result, a[1..], b);
      var query := result.Find(a[0]).value;
      var wheel := Wheel(a[0], query.candidates, query.multiple);
      AppendAssociates([wheel], WheelsOf(result, a[1..]).value, WheelsOf(result, b).value);
    }
  }

  /** The ways of two options asked one after the other. */
  lemma JoinedOption(result: QueryResult, a: seq<Text>, b: seq<Text>)
    requires WheelsOf(result, a).Some? && WheelsOf(result, b).Some?
    ensures WheelsOf(result, a + b).Some?
    ensures OptionWays(result, a + b) == Spun(OptionWays(result, a), OptionWays(result, b))
  {
    WheelsAppend(result, a, b);
    ProductAppend(WheelsOf(result, a).value, WheelsOf(result, b).value);
  }

  // ---- what is asked, choice by choice -----------------------------------------------

  /** Every choice of one option per group, as the list of ids it asks for in order. */
  function Asked(groups: seq<Group>): seq<seq<Text>> {
    if groups == [] then [[]] else Cross(groups[0].options, Asked(groups[1..]))
  }

  ghost predicate Answerable(result: QueryResult, options: seq<seq<Text>>) {
    forall option :: option in options ==> WheelsOf(result, option).Some?
  }

  ghost predicate AllAnswerable(result: QueryResult, groups: seq<Group>) {
    forall g :: g in groups ==> Answerable(result, g.options)
  }

  lemma {:induction false} WaysOfAppend(result: QueryResult, a: seq<seq<Text>>, b: seq<seq<Text>>)
    ensures WaysOf(result, a + b) == WaysOf(result, a) + WaysOf(result, b)
  {
    if a == [] {
      assert a + b == b;
    } else {
      assert (a + b)[1..] == a[1..] + b;
      WaysOfAppend(result, a[1..], b);
    }
  }

  lemma {:induction false} OneOptionCrossed(result: QueryResult, option: seq<Text>, asked: seq<seq<Text>>)
    requires WheelsOf(result, option).Some? && Answerable(result, asked)
    ensures multiset(Cross(OptionWays(result, option), WaysOf(result, asked)))
         == multiset(WaysOf(result, Behind(option, asked)))
  {
    var ways := OptionWays(result, option);
    if asked == [] {
      CrossNone(ways);
    } else {
      hide OptionWays, WheelsOf, Cross, Spun, WaysOf, Behind;
      var first, rest := asked[0], asked[1..];
      assert first in asked;
      OneOptionCrossed(result, option, rest);
      FirstWays(result, asked);
      CrossSplits(ways, OptionWays(result, first), WaysOf(result, rest));
      CrossIsSpun(ways, OptionWays(result, first));
      JoinedOption(result, option, first);
      FirstBehind(option, asked);
      WaysOfAppend(result, [option + first], Behind(option, rest));
      OneOption(result, option + first);
    }
  }

  lemma FirstWays(result: QueryResult, asked: seq<seq<Text>>)
    requires asked != []
    ensures WaysOf(result, asked) == OptionWays(result, asked[0]) + WaysOf(result, asked[1..])
  {
  }

  lemma FirstBehind<T>(x: seq<T>, ys: seq<seq<T>>)
    requires ys != []
    ensures Behind(x, ys) == [x + ys[0]] + Behind(x, ys[1..])
  {
  }

  lemma OneOption(result: QueryResult, option: seq<Text>)
    ensures WaysOf(result, [option]) == OptionWays(result, option)
  {
    assert [option][1..] == [] && WaysOf(result, []) == [];
  }

  lemma {:induction false} OptionsCrossed(result: QueryResult, options: seq<seq<Text>>, asked: seq<seq<Text>>)
    requires Answerable(result, options) && Answerable(result, asked)
    ensures multiset(Cross(WaysOf(result, options), WaysOf(result, asked)))
         == multiset(WaysOf(result, Cross(options, asked)))
  {
    if options == [] {
    } else {
      hide OptionWays, WheelsOf;
      assert options[0] in options;
      OptionsCrossed(result, options[1..], asked);
      OneOptionCrossed(result, options[0], asked);
      CrossAppend(OptionWays(result, options[0]), WaysOf(result, options[1..]), WaysOf(result, asked));
      WaysOfAppend(result, Behind(options[0], asked), Cross(options[1..], asked));
    }
  }

  /** The members of every completion, group by group. */
  ghost function FlatWays(result: QueryResult, groups: seq<Group>): seq<seq<Member>> {
    if groups == [] then [[]] else Cross(GroupWays(result, groups[0]), FlatWays(result, groups[1..]))
  }

  lemma {:induction false} AskedIsAnswerable(result: QueryResult, groups: seq<Group>)
    requires AllAnswerable(result, groups)
    ensures Answerable(result, Asked(groups))
  {
    if groups == [] {
    } else {
      AskedIsAnswerable(result, groups[1..]);
      assert groups[0] in groups;
      forall asked | asked in Asked(groups) ensures WheelsOf(result, asked).Some? {
        InCross(groups[0].options, Asked(groups[1..]), asked);
        var x, y :| x in groups[0].options && y in Asked(groups[1..]) && asked == x + y;
        JoinedOption(result, x, y);
      }
    }
  }

  /** Group by group or choice by choice, the same ways as often. */
  lemma {:induction false} FlatWaysAreAsked(result: QueryResult, groups: seq<Group>)
    requires AllAnswerable(result, groups)
    ensures multiset(FlatWays(result, groups)) == multiset(WaysOf(result, Asked(groups)))
  {
    if groups == [] {
      OneOption(result, []);
    } else {
      hide WaysOf, WheelsOf, OptionWays;
      var rest := groups[1..];
      assert groups[0] in groups;
      FlatWaysAreAsked(result, rest);
      AskedIsAnswerable(result, rest);
      CrossReordered(GroupWays(result, groups[0]), FlatWays(result, rest), WaysOf(result, Asked(rest)));
      OptionsCrossed(result, groups[0].options, Asked(rest));
    }
  }

  // ---- the enumeration, member by member ---------------------------------------------

  ghost function Wrapped(partial: Combination, groups: seq<Group>, flat: seq<seq<Member>>): seq<Combination> {
    seq(|flat|, i requires 0 <= i < |flat| =>
      Combination(partial.members + flat[i], partial.purposes + Purposes(groups)))
  }

  lemma WrappedBehind(partial: Combination, groups: seq<Group>, way: seq<Member>, flat: seq<seq<Member>>)
    requires groups != []
    ensures Wrapped(Joined(partial, way, groups[0].purpose), groups[1..], flat) == Wrapped(partial, groups, Behind(way, flat))
  {
    var next := Joined(partial, way, groups[0].purpose);
    AppendAssociates(partial.purposes, PurposeList(groups[0].purpose), Purposes(groups[1..]));
    assert next.purposes + Purposes(groups[1..]) == partial.purposes + Purposes(groups);
    forall i | 0 <= i < |flat|
      ensures Wrapped(next, groups[1..], flat)[i] == Wrapped(partial, groups, Behind(way, flat))[i]
    {
      AppendAssociates(partial.members, way, flat[i]);
      assert next.members + flat[i] == partial.members + Behind(way, flat)[i];
    }
  }

  lemma {:induction false} CompletionsWrapped(result: QueryResult, partial: Combination, groups: seq<Group>)
    ensures Completions(result, partial, groups) == Wrapped(partial, groups, FlatWays(result, groups))
    decreases |groups|, 0, 0
  {
    if groups == [] {
      assert partial.members + [] == partial.members && partial.purposes + Purposes([]) == partial.purposes;
      assert Wrapped(partial, [], [[]]) == [partial];
    } else {
      ExtensionsWrapped(result, partial, groups, GroupWays(result, groups[0]));
    }
  }

  lemma {:induction false} ExtensionsWrapped(
    result: QueryResult, partial: Combination, groups: seq<Group>, ways: seq<seq<Member>>
  )
    requires groups != []
    ensures AllCompletions(result, Extend(partial, ways, groups[0].purpose), groups[1..])
         == Wrapped(partial, groups, Cross(ways, FlatWays(result, groups[1..])))
    decreases |groups| - 1, 1, |ways|
  {
    var extended := Extend(partial, ways, groups[0].purpose);
    if ways == [] {
    } else {
      assert extended[1..] == Extend(partial, ways[1..], groups[0].purpose);
      CompletionsWrapped(result, extended[0], groups[1..]);
      WrappedBehind(partial, groups, ways[0], FlatWays(result, groups[1..]));
      ExtensionsWrapped(result, partial, groups, ways[1..]);
    }
  }

  lemma WrappedDistinct(groups: seq<Group>, flat: seq<seq<Member>>)
    ensures Distinct(Wrapped(NOTHING, groups, flat)) <==> Distinct(flat)
  {
    var wrapped := Wrapped(NOTHING, groups, flat);
    forall i | 0 <= i < |flat| ensures wrapped[i].members == flat[i] {
      assert [] + flat[i] == flat[i];
    }
    forall i, j | 0 <= i < j < |flat| ensures wrapped[i] == wrapped[j] <==> flat[i] == flat[j] {
    }
  }

  // ---- a list of members tells what was asked ----------------------------------------

  lemma AnswerHasIds(result: QueryResult, id: Text, piece: seq<Member>)
    requires AnswersQuery(result, id, piece)
    ensures piece != [] && piece[0].0 == id
    ensures result.Find(id).Some?
    ensures |piece| == if result.Find(id).value.multiple then |result.Find(id).value.candidates| else 1
  {
  }

  /** Two lists of ids answered by the same members are the same. */
  lemma {:induction false} MembersTellIds(
    result: QueryResult, a: seq<Text>, b: seq<Text>, members: seq<Member>, p: seq<seq<Member>>, q: seq<seq<Member>>
  )
    requires IsAnswer(result, a, members, p) && IsAnswer(result, b, members, q)
    ensures a == b
  {
    if a != [] {
      AnswerHasIds(result, a[0], p[0]);
    }
    if b != [] {
      AnswerHasIds(result, b[0], q[0]);
    }
    if a != [] && b != [] {
      hide AnswersQuery;
      assert p[0] == members[..|p[0]|] && q[0] == members[..|q[0]|];
      assert Concat(p[1..]) == members[|p[0]|..] && Concat(q[1..]) == members[|q[0]|..];
      RestIsAnswer(result, a, members, p);
      RestIsAnswer(result, b, members, q);
      MembersTellIds(result, a[1..], b[1..], Concat(p[1..]), p[1..], q[1..]);
      assert a == [a[0]] + a[1..] && b == [b[0]] + b[1..];
    }
  }

  lemma RestIsAnswer(result: QueryResult, option: seq<Text>, members: seq<Member>, pieces: seq<seq<Member>>)
    requires IsAnswer(result, option, members, pieces) && option != []
    ensures IsAnswer(result, option[1..], Concat(pieces[1..]), pieces[1..])
  {
    hide AnswersQuery;
    forall k | 0 <= k < |option[1..]| ensures AnswersQuery(result, option[1..][k], pieces[1..][k]) {
      assert option[1..][k] == option[k + 1];
    }
  }

  lemma WaysTellIds(result: QueryResult, a: seq<Text>, b: seq<Text>, members: seq<Member>)
    requires members in OptionWays(result, a) && members in OptionWays(result, b)
    ensures a == b
  {
    WaysAreAnswers(result, a, members);
    WaysAreAnswers(result, b, members);
    var p :| IsAnswer(result, a, members, p);
    var q :| IsAnswer(result, b, members, q);
    MembersTellIds(result, a, b, members, p, q);
  }

  lemma AnswerableHasWays(result: QueryResult, option: seq<Text>)
    requires WheelsOf(result, option).Some?
    ensures OptionWays(result, option) != []
  {
    WheelsTurn(result, option);
    ProductLength(WheelsOf(result, option).value);
    TotalIsPositive(WheelsOf(result, option).value);
  }

  /** The ways of several lists of ids repeat nothing exactly when no list is there twice and none offers one twice. */
  lemma {:induction false} WaysOfDiffer(result: QueryResult, asked: seq<seq<Text>>)
    requires Answerable(result, asked)
    ensures Distinct(WaysOf(result, asked)) <==> Distinct(asked) && forall ids, id :: ids in asked && id in ids ==> OffersOnce(result, id)
  {
    if asked == [] {
    } else {
      hide OptionWays, WheelsOf, OffersOnce;
      var first, rest := asked[0], asked[1..];
      assert first in asked;
      WaysOfDiffer(result, rest);
      WaysDifferIff(result, first);
      DistinctAppend(OptionWays(result, first), WaysOf(result, rest));
      DistinctAppend([first], rest);
      assert [first] + rest == asked;
      FirstIsApart(result, first, rest);
      assert forall ids :: ids in asked <==> ids == first || ids in rest;
    }
  }

  lemma FirstIsApart(result: QueryResult, first: seq<Text>, rest: seq<seq<Text>>)
    requires WheelsOf(result, first).Some?
    ensures Disjoint(OptionWays(result, first), WaysOf(result, rest)) <==> Disjoint([first], rest)
  {
    hide OptionWays, WheelsOf;
    AnswerableHasWays(result, first);
    if first in rest {
      var way := OptionWays(result, first)[0];
      InWaysOf(result, rest, way);
      assert way in OptionWays(result, first) && first in [first];
    } else {
      forall way | way in OptionWays(result, first) ensures way !in WaysOf(result, rest) {
        InWaysOf(result, rest, way);
        if option :| option in rest && way in OptionWays(result, option) {
          WaysTellIds(result, first, option, way);
        }
      }
    }
  }

  // ---- the enumeration ----------------------------------------------------------------

  lemma {:induction false} RequiredAreAnswerable(result: QueryResult, sets: seq<CredentialSetQuery>)
    ensures AllAnswerable(result, RequiredGroups(result, sets))
  {
    if sets == [] {
    } else {
      RequiredAreAnswerable(result, sets[1..]);
      forall option | option in SatisfiedOptions(result, sets[0].options) ensures WheelsOf(result, option).Some? {
        SatisfiedOptionsKept(result, sets[0].options, option);
        SatisfiedHasWheels(result, option);
      }
    }
  }

  lemma GroupsAreAnswerable(result: QueryResult)
    requires Enumeration(result) != []
    ensures AllAnswerable(result, Groups(result))
  {
    match result.credentialSets
    case Some(sets) => RequiredAreAnswerable(result, sets);
    case None =>
      var ids := MatchIds(result.matches);
      if OptionWays(result, ids) == [] {
        NothingToAnswer(result);
      }
  }

  lemma NothingToAnswer(result: QueryResult)
    requires result.credentialSets.None? && OptionWays(result, MatchIds(result.matches)) == []
    ensures Enumeration(result) == []
  {
    CompletionsWrapped(result, NOTHING, Groups(result));
    assert Groups(result)[1..] == [];
    OneOption(result, MatchIds(result.matches));
    assert FlatWays(result, Groups(result)) == [];
  }

  /** Some choice asks for the id. */
  ghost predicate IsAsked(groups: seq<Group>, id: Text) {
    exists ids :: ids in Asked(groups) && id in ids
  }

  /** Some option of some group names the id. */
  ghost predicate IsNamed(groups: seq<Group>, id: Text) {
    exists g, option :: g in groups && option in g.options && id in option
  }

  lemma {:induction false} AskedIsNamed(groups: seq<Group>, id: Text)
    requires Asked(groups) != []
    ensures IsAsked(groups, id) <==> IsNamed(groups, id)
  {
    if groups == [] {
    } else {
      var options, rest := groups[0].options, groups[1..];
      if Asked(rest) == [] {
        CrossNone(options);
      }
      AskedIsNamed(rest, id);
      forall ids ensures ids in Asked(groups) <==> exists x, y :: x in options && y in Asked(rest) && ids == x + y {
        InCross(options, Asked(rest), ids);
      }
      if option :| option in options && id in option {
        assert id in option + Asked(rest)[0] && Asked(rest)[0] in Asked(rest);
      }
      if ids :| ids in Asked(rest) && id in ids {
        assert options != [] && options[0] in options && id in options[0] + ids;
      }
      assert forall g :: g in groups <==> g == groups[0] || g in rest;
    }
  }

  lemma NothingAsked(result: QueryResult, groups: seq<Group>)
    requires AllAnswerable(result, groups) && Asked(groups) == []
    ensures Completions(result, NOTHING, groups) == []
  {
    CompletionsWrapped(result, NOTHING, groups);
    FlatWaysAreAsked(result, groups);
    assert WaysOf(result, []) == [];
    assert |multiset(FlatWays(result, groups))| == |FlatWays(result, groups)|;
  }

  lemma AskedHasWays(result: QueryResult)
    requires Enumeration(result) != []
    ensures Asked(Groups(result)) != []
  {
    GroupsAreAnswerable(result);
    if Asked(Groups(result)) == [] {
      NothingAsked(result, Groups(result));
    }
  }

  /**
   * No combination is listed twice exactly when no two choices of options ask for the same ids in the same order,
   * and no query asked for lists one of its alternatives twice.
   */
  lemma EnumerationDiffersIff(result: QueryResult)
    requires Enumeration(result) != []
    ensures Distinct(Enumeration(result)) <==>
      && Distinct(Asked(Groups(result)))
      && forall id :: IsNamed(Groups(result), id) ==> OffersOnce(result, id)
  {
    hide Groups, Asked, OffersOnce, FlatWays, Completions, Wrapped, WaysOf;
    var groups := Groups(result);
    GroupsAreAnswerable(result);
    AskedHasWays(result);
    CompletionsWrapped(result, NOTHING, groups);
    WrappedDistinct(groups, FlatWays(result, groups));
    FlatWaysAreAsked(result, groups);
    DistinctReordered(FlatWays(result, groups), WaysOf(result, Asked(groups)));
    AskedIsAnswerable(result, groups);
    WaysOfDiffer(result, Asked(groups));
    forall id ensures IsAsked(groups, id) <==> IsNamed(groups, id) {
      AskedIsNamed(groups, id);
    }
  }

  /** A wallet that holds no id twice lists a combination twice exactly when two choices ask for the same. */
  lemma DistinctCredentialsDifferIff(query: Query, held: seq<Credential>, policy: Policy)
    requires DistinctIds(held) && Enumeration(Execute(query, held, policy)) != []
    ensures Distinct(Enumeration(Execute(query, held, policy)))
       <==> Distinct(Asked(Groups(Execute(query, held, policy))))
  {
    hide Enumeration, Groups, Asked, Execute;
    EnumerationDiffersIff(Execute(query, held, policy));
    forall id ensures OffersOnce(Execute(query, held, policy), id) {
      HeldOnceIsOfferedOnce(query, held, policy, id);
    }
  }

  /** With one required set the choices are its options. */
  lemma OneGroupAsks(group: Group)
    ensures Asked([group]) == group.options
  {
    assert [group][1..] == [];
    CrossNone(group.options);
  }

  /** One required set that lists a satisfiable option twice lists its combinations twice. */
  lemma OptionListedTwice(result: QueryResult, group: Group, i: nat, j: nat)
    requires Enumeration(result) != [] && Groups(result) == [group]
    requires i < j < |group.options| && group.options[i] == group.options[j]
    ensures !Distinct(Enumeration(result))
  {
    hide Enumeration, Groups, OffersOnce;
    EnumerationDiffersIff(result);
    OneGroupAsks(group);
  }
}
