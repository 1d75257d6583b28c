/** The combinations of one option, enumerated by turning one dial per query, and the count of those not built. */
module Products {
  import opened Bytes
  import opened Wrappers
  import opened Sequences
  import opened DcqlEval
  import opened Odometer

  /** A count of missing combinations, exact unless a machine word could not hold it. */
  datatype Dropped = Exact(count: nat) | AtLeast(count: nat) {
    /** Both counts together, where `most` is the largest `usize`. */
    function Add(other: Dropped, most: nat): Dropped {
      if count + other.count > most then AtLeast(most)
      else if Exact? && other.Exact? then Exact(count + other.count)
      else AtLeast(count + other.count)
    }
  }

  /** Adding counts does not depend on order or grouping, saturated or not. */
  lemma AddLaws(a: Dropped, b: Dropped, c: Dropped, most: nat)
    ensures a.Add(b, most) == b.Add(a, most)
    ensures a.Add(b, most).Add(c, most) == a.Add(b.Add(c, most), most)
    ensures a.Add(b, most).Exact? <==> a.Exact? && b.Exact? && a.count + b.count <= most
  {
  }

  /** A wheel with its digit; `current` steps through the candidates and wraps. */
  class Dial {
    const wheel: Wheel
    var current: Candidate
    var upcoming: seq<Candidate>

    ghost predicate Valid()
      reads this
    {
      && |upcoming| < |wheel.candidates|
      && upcoming == wheel.candidates[|wheel.candidates| - |upcoming|..]
      && current == wheel.candidates[Place()]
      && (wheel.every ==> Place() == 0)
    }

    ghost function Place(): int
      reads this
    {
      |wheel.candidates| - 1 - |upcoming|
    }

    constructor (id: Text, candidates: seq<Candidate>, multiple: bool)
      requires candidates != []
      ensures wheel == Wheel(id, candidates, multiple)
      ensures Valid() && Place() == 0
    {
      wheel := Wheel(id, candidates, multiple);
      current := candidates[0];
      upcoming := candidates[1..];
    }

    method Width() returns (width: nat)
      requires Valid()
      ensures width == wheel.Width()
    {
      width := if wheel.every then 1 else |wheel.candidates[1..]| + 1;
    }

    method Read(members: seq<Member>) returns (longer: seq<Member>)
      requires Valid()
      ensures Place() < wheel.Width() && longer == members + wheel.At(Place())
    {
      if wheel.every {
        longer := members + seq(|wheel.candidates|, i requires 0 <= i < |wheel.candidates| => (wheel.id, wheel.candidates[i]));
      } else {
        longer := members + [(wheel.id, current)];
      }
    }

    /** One step; `carried` when it wrapped. */
    method Turn() returns (carried: bool)
      requires Valid()
      modifies this
      ensures Valid()
      ensures carried <==> old(Place()) + 1 == wheel.Width()
      ensures Place() == if carried then 0 else old(Place()) + 1
    {
      if wheel.every {
        return true;
      }
      if upcoming != [] {
        current, upcoming := upcoming[0], upcoming[1..];
        return false;
      }
      current, upcoming := wheel.candidates[0], wheel.candidates[1..];
      return true;
    }
  }

  // ---- what an option offers -----------------------------------------------

  /** The wheels of an option; `None` when an id dangles or its query has no candidate. */
  function WheelsOf(result: QueryResult, option: seq<Text>): Option<seq<Wheel>> {
    if option == [] then Some([])
    else match result.Find(option[0])
      case None => None
      case Some(query) =>
        if query.candidates == [] then None
        else match WheelsOf(result, option[1..])
          case None => None
          case Some(rest) => Some([Wheel(option[0], query.candidates, query.multiple)] + rest)
  }

  /** Every way to answer all queries of an option, in odometer order. */
  ghost function OptionWays(result: QueryResult, option: seq<Text>): seq<seq<Member>> {
    match WheelsOf(result, option)
    case None => []
    case Some(wheels) => Product(wheels)
  }

  lemma {:induction false} WheelsTurn(result: QueryResult, option: seq<Text>)
    requires WheelsOf(result, option).Some?
    ensures Turning(WheelsOf(result, option).value) && |WheelsOf(result, option).value| == |option|
  {
    if option == [] {
    } else {
      WheelsTurn(result, option[1..]);
    }
  }

  /** The wheels of a longer prefix of an option. */
  lemma {:induction false} WheelsPush(result: QueryResult, option: seq<Text>, k: nat)
    requires k < |option|
    ensures WheelsOf(result, option[..k + 1]) ==
      match WheelsOf(result, option[..k])
      case None => None
      case Some(wheels) =>
        var query := result.Find(option[k]);
        if query.None? || query.value.candidates == [] then None
        else Some(wheels + [Wheel(option[k], query.value.candidates, query.value.multiple)])
  {
    if k == 0 {
      assert option[..1][1..] == [] && option[..0] == [];
      assert forall wheel: Wheel :: [wheel] + [] == [] + [wheel];
    } else {
      WheelsPush(result, option[1..], k - 1);
      assert option[..k + 1][1..] == option[1..][..k] && option[..k][1..] == option[1..][..k - 1];
      assert option[1..][k - 1] == option[k];
      var rest, query := WheelsOf(result, option[1..][..k - 1]), result.Find(option[k]);
      if rest.Some? && query.Some? && query.value.candidates != [] {
        var wheel := Wheel(option[k], query.value.candidates, query.value.multiple);
        assert forall first :: [first] + (rest.value + [wheel]) == ([first] + rest.value) + [wheel];
      }
    }
  }

  /** An option with an unanswerable prefix has no wheels. */
  lemma {:induction false} NoWheels(result: QueryResult, option: seq<Text>, k: nat)
    requires k <= |option| && WheelsOf(result, option[..k]).None?
    ensures WheelsOf(result, option).None?
    decreases |option| - k
  {
    if k == |option| {
      assert option[..k] == option;
    } else {
      WheelsPush(result, option, k);
      NoWheels(result, option, k + 1);
    }
  }

  lemma {:induction false} TotalPush(wheels: seq<Wheel>, wheel: Wheel)
    ensures Total(wheels + [wheel]) == Total(wheels) * wheel.Width()
  {
    if wheels == [] {
      assert [wheel][1..] == [];
    } else {
      assert (wheels + [wheel])[1..] == wheels[1..] + [wheel];
      TotalPush(wheels[1..], wheel);
      MulAssociates(wheels[0].Width(), Total(wheels[1..]), wheel.Width());
    }
  }

  lemma MulAssociates(a: nat, b: nat, c: nat)
    ensures a * (b * c) == (a * b) * c
  {
  }

  // ---- the enumeration -----------------------------------------------------

  ghost predicate Dials(dials: seq<Dial>, wheels: seq<Wheel>)
    reads dials
  {
    && |dials| == |wheels|
    && (forall i :: 0 <= i < |dials| ==> dials[i].Valid() && dials[i].wheel == wheels[i])
    && (forall i, j :: 0 <= i < j < |dials| ==> dials[i] != dials[j])
  }

  ghost predicate Showing(dials: seq<Dial>, digits: seq<nat>)
    reads dials
  {
    |digits| == |dials| && forall i :: 0 <= i < |dials| ==> dials[i].Place() == digits[i]
  }

  /** Turns dials until one does not carry; `stepped` is its index, if there is one. */
  method CarryAcross(dials: seq<Dial>, ghost wheels: seq<Wheel>, ghost digits: seq<nat>) returns (stepped: nat)
    requires Dials(dials, wheels) && Showing(dials, digits) && IsPosition(digits, wheels)
    modifies dials
    ensures Dials(dials, wheels) && stepped <= |dials|
    ensures forall j :: 0 <= j < stepped ==> dials[j].Place() == 0 && digits[j] + 1 == wheels[j].Width()
    ensures stepped < |dials| ==> dials[stepped].Place() == digits[stepped] + 1 < wheels[stepped].Width()
    ensures forall j :: stepped < j < |dials| ==> dials[j].Place() == digits[j]
  {
    hide Dial.Valid, Dial.Place;
    stepped := 0;
    while stepped < |dials|
      invariant 0 <= stepped <= |dials|
      invariant Dials(dials, wheels)
      invariant forall j :: 0 <= j < stepped ==> dials[j].Place() == 0 && digits[j] + 1 == wheels[j].Width()
      invariant forall j :: stepped <= j < |dials| ==> dials[j].Place() == digits[j]
    {
      var carried := dials[stepped].Turn();
      if !carried {
        return;
      }
      stepped := stepped + 1;
    }
  }

  /** One turn of the odometer, each carry going to the next dial. */
  method TurnAll(dials: seq<Dial>, ghost wheels: seq<Wheel>, ghost digits: seq<nat>) returns (ghost next: seq<nat>)
    requires Dials(dials, wheels) && Showing(dials, digits) && IsPosition(digits, wheels) && Turning(wheels)
    modifies dials
    ensures Dials(dials, wheels) && Showing(dials, next) && IsPosition(next, wheels)
    ensures Value(next, wheels) == if Value(digits, wheels) + 1 < Total(wheels) then Value(digits, wheels) + 1 else 0
  {
    hide Turned, Value, Total, Turning;
    var stepped := CarryAcross(dials, wheels, digits);
    TurnedAt(digits, wheels, stepped);
    TurnCounts(digits, wheels);
    next := Turned(digits, wheels);
  }

  /** The members every dial shows, in option order. */
  method ReadAll(dials: seq<Dial>, ghost wheels: seq<Wheel>, ghost digits: seq<nat>) returns (members: seq<Member>)
    requires Dials(dials, wheels) && Showing(dials, digits) && IsPosition(digits, wheels)
    ensures Value(digits, wheels) < |Product(wheels)| && members == Product(wheels)[Value(digits, wheels)]
  {
    members := [];
    for i := 0 to |dials|
      invariant IsPosition(digits[..i], wheels[..i])
      invariant members == Reading(digits[..i], wheels[..i])
    {
      ReadingPush(digits, wheels, i);
      members := dials[i].Read(members);
    }
    assert digits[..|dials|] == digits && wheels[..|dials|] == wheels;
    ProductAt(digits, wheels);
  }

  /** The product of the widths, clamped to `most` once it passes it. */
  method CountProducts(dials: seq<Dial>, ghost wheels: seq<Wheel>, most: nat) returns (total: nat, overflowed: bool)
    requires Dials(dials, wheels) && Turning(wheels) && most >= 1
    ensures overflowed <==> Total(wheels) > most
    ensures total == Min(Total(wheels), most)
  {
    total, overflowed := 1, false;
    assert wheels[..0] == [];
    for i := 0 to |dials|
      invariant overflowed <==> Total(wheels[..i]) > most
      invariant total == Min(Total(wheels[..i]), most) && total >= 1
    {
      var width := dials[i].Width();
      assert wheels[i].candidates != [];
      assert wheels[..i + 1] == wheels[..i] + [wheels[i]];
      TotalPush(wheels[..i], wheels[i]);
      MulMonotonic(width, Min(Total(wheels[..i]), most), Total(wheels[..i]));
      MulMonotonic(Total(wheels[..i]), 1, width);
      MulMonotonic(total, 1, width);
      if total * width <= most {
        total := total * width;
      } else {
        total, overflowed := most, true;
      }
    }
    assert wheels[..|dials|] == wheels;
  }

  /** One dial per query id of the option; none when an id dangles or its query has no candidate. */
  method DialsOf(result: QueryResult, option: seq<Text>) returns (found: bool, dials: seq<Dial>)
    ensures found <==> WheelsOf(result, option).Some?
    ensures found ==> Dials(dials, WheelsOf(result, option).value)
    ensures found ==> forall i :: 0 <= i < |dials| ==> fresh(dials[i]) && dials[i].Place() == 0
  {
    hide Turning, Total, Product;
    dials := [];
    ghost var wheels: seq<Wheel> := [];
    for k := 0 to |option|
      invariant WheelsOf(result, option[..k]) == Some(wheels)
      invariant |dials| == k && Dials(dials, wheels)
      invariant forall i :: 0 <= i < k ==> fresh(dials[i]) && dials[i].Place() == 0
    {
      WheelsPush(result, option, k);
      var query := result.Find(option[k]);
      if query.None? || query.value.candidates == [] {
        NoWheels(result, option, k + 1);
        return false, [];
      }
      var dial := new Dial(option[k], query.value.candidates, query.value.multiple);
      dials := dials + [dial];
      wheels := wheels + [dial.wheel];
    }
    assert option[..|option|] == option;
    return true, dials;
  }

  lemma StartIsShown(dials: seq<Dial>, wheels: seq<Wheel>)
    requires Dials(dials, wheels) && Turning(wheels) && forall i :: 0 <= i < |dials| ==> dials[i].Place() == 0
    ensures Showing(dials, Start(wheels)) && IsPosition(Start(wheels), wheels) && Value(Start(wheels), wheels) == 0
  {
    StartIsZero(wheels);
  }

  /** The first `take` positions of the odometer, read one by one. */
  method TurnThrough(dials: seq<Dial>, ghost wheels: seq<Wheel>, take: nat) returns (products: seq<seq<Member>>)
    requires Dials(dials, wheels) && Turning(wheels) && take <= Total(wheels) == |Product(wheels)|
    requires forall i :: 0 <= i < |dials| ==> dials[i].Place() == 0
    modifies dials
    ensures products == Product(wheels)[..take]
  {
    hide *;
    products := [];
    ghost var digits := Start(wheels);
    StartIsShown(dials, wheels);
    for n := 0 to take
      invariant Dials(dials, wheels) && Showing(dials, digits) && IsPosition(digits, wheels)
      invariant n < Total(wheels) ==> Value(digits, wheels) == n
      invariant products == Product(wheels)[..n]
    {
      var members := ReadAll(dials, wheels, digits);
      assert Product(wheels)[..n + 1] == Product(wheels)[..n] + [members];
      products := products + [members];
      digits := TurnAll(dials, wheels, digits);
    }
  }

  /** A prefix of the product, at most `budget` long, and how much is missing from it. */
  method CandidateProducts(result: QueryResult, option: seq<Text>, budget: nat, most: nat)
    returns (products: seq<seq<Member>>, dropped: Dropped)
    requires 1 <= most && budget <= most
    ensures products == Take(budget, OptionWays(result, option))
    ensures dropped.Exact? <==> |OptionWays(result, option)| <= most
    ensures dropped.count == Min(|OptionWays(result, option)|, most) - |products|
  {
    var found, dials := DialsOf(result, option);
    if !found {
      return [], Exact(0);
    }
    ghost var wheels := WheelsOf(result, option).value;
    WheelsTurn(result, option);
    ProductLength(wheels);

    var total, overflowed := CountProducts(dials, wheels, most);
    var take := Min(total, budget);
    products := TurnThrough(dials, wheels, take);
    var remaining := total - take;
    dropped := if overflowed then AtLeast(remaining) else Exact(remaining);
  }
}
