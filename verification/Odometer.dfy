/** Mixed-radix counting: the wheels of one option, what each position reads, and the full product. */
module Odometer {
  import opened Bytes
  import opened Sequences
  import opened DcqlEval

  type Member = (Text, Candidate)

  /** One query of an option: all its candidates at once, or one of them per combination. */
  datatype Wheel = Wheel(id: Text, candidates: seq<Candidate>, every: bool) {
    function Width(): nat {
      if every then 1 else |candidates|
    }

    /** The members the wheel adds when it shows its candidate number `digit`. */
    function At(digit: nat): seq<Member>
      requires digit < Width()
    {
      if every then seq(|candidates|, i requires 0 <= i < |candidates| => (id, candidates[i]))
      else [(id, candidates[digit])]
    }
  }

  ghost predicate Turning(wheels: seq<Wheel>) {
    forall i :: 0 <= i < |wheels| ==> wheels[i].candidates != []
  }

  /** The true number of combinations, unbounded. */
  ghost function Total(wheels: seq<Wheel>): nat {
    if wheels == [] then 1 else wheels[0].Width() * Total(wheels[1..])
  }

  /** The simple form: for each way of the later wheels, each way of the first. */
  ghost function Product(wheels: seq<Wheel>): seq<seq<Member>> {
    if wheels == [] then [[]] else Concat(Spin(wheels[0], Product(wheels[1..])))
  }

  /** Every position of one wheel before each of the given tails. */
  ghost function Spin(wheel: Wheel, tails: seq<seq<Member>>): seq<seq<seq<Member>>> {
    seq(|tails|, t requires 0 <= t < |tails| => SpinBefore(wheel, tails[t]))
  }

  ghost function SpinBefore(wheel: Wheel, tail: seq<Member>): seq<seq<Member>> {
    seq(wheel.Width(), d requires 0 <= d < wheel.Width() => wheel.At(d) + tail)
  }

  // ---- positions -----------------------------------------------------------

  ghost predicate IsPosition(digits: seq<nat>, wheels: seq<Wheel>) {
    |digits| == |wheels| && forall i :: 0 <= i < |digits| ==> digits[i] < wheels[i].Width()
  }

  ghost function Reading(digits: seq<nat>, wheels: seq<Wheel>): seq<Member>
    requires IsPosition(digits, wheels)
  {
    if wheels == [] then [] else wheels[0].At(digits[0]) + Reading(digits[1..], wheels[1..])
  }

  /** One turn: the first wheel steps; a wheel that wraps carries into the next. */
  ghost function Turned(digits: seq<nat>, wheels: seq<Wheel>): seq<nat>
    requires IsPosition(digits, wheels)
  {
    if wheels == [] then []
    else if digits[0] + 1 < wheels[0].Width() then [digits[0] + 1] + digits[1..]
    else [0] + Turned(digits[1..], wheels[1..])
  }

  /** The number a position stands for. */
  ghost function Value(digits: seq<nat>, wheels: seq<Wheel>): nat
    requires IsPosition(digits, wheels)
  {
    if wheels == [] then 0 else digits[0] + wheels[0].Width() * Value(digits[1..], wheels[1..])
  }

  /** The wheels that wrap come first; the next one, if any, steps. */
  lemma {:induction false} TurnedAt(digits: seq<nat>, wheels: seq<Wheel>, i: nat)
    requires IsPosition(digits, wheels) && i <= |wheels|
    requires forall j :: 0 <= j < i ==> digits[j] + 1 == wheels[j].Width()
    requires i < |wheels| ==> digits[i] + 1 < wheels[i].Width()
    ensures |Turned(digits, wheels)| == |wheels|
    ensures forall j :: 0 <= j < |wheels| ==>
      Turned(digits, wheels)[j] == if j < i then 0 else if j == i then digits[j] + 1 else digits[j]
  {
    if i == 0 {
    } else {
      TurnedAt(digits[1..], wheels[1..], i - 1);
    }
  }

  /** Reading one more wheel appends its members. */
  lemma {:induction false} ReadingPush(digits: seq<nat>, wheels: seq<Wheel>, k: nat)
    requires IsPosition(digits, wheels) && k < |wheels|
    ensures IsPosition(digits[..k], wheels[..k]) && IsPosition(digits[..k + 1], wheels[..k + 1])
    ensures Reading(digits[..k + 1], wheels[..k + 1]) == Reading(digits[..k], wheels[..k]) + wheels[k].At(digits[k])
  {
    if k == 0 {
    } else {
      ReadingPush(digits[1..], wheels[1..], k - 1);
      assert digits[..k + 1][1..] == digits[1..][..k] && digits[..k][1..] == digits[1..][..k - 1];
      assert wheels[..k + 1][1..] == wheels[1..][..k] && wheels[..k][1..] == wheels[1..][..k - 1];
    }
  }

  lemma {:induction false} TotalIsPositive(wheels: seq<Wheel>)
    requires Turning(wheels)
    ensures Total(wheels) >= 1
  {
    if wheels == [] {
    } else {
      TotalIsPositive(wheels[1..]);
      assert wheels[0].candidates != [];
      MulMonotonic(wheels[0].Width(), 1, Total(wheels[1..]));
    }
  }

  lemma {:induction false} ValueBelowTotal(digits: seq<nat>, wheels: seq<Wheel>)
    requires IsPosition(digits, wheels)
    ensures Value(digits, wheels) < Total(wheels)
  {
    if wheels == [] {
    } else {
      var rest := Value(digits[1..], wheels[1..]);
      ValueBelowTotal(digits[1..], wheels[1..]);
      MulMonotonic(wheels[0].Width(), rest + 1, Total(wheels[1..]));
      MulNext(wheels[0].Width(), rest);
    }
  }

  /** A number stands for one position only. */
  lemma {:induction false} ValueIsInjective(a: seq<nat>, b: seq<nat>, wheels: seq<Wheel>)
    requires IsPosition(a, wheels) && IsPosition(b, wheels)
    requires Value(a, wheels) == Value(b, wheels)
    ensures a == b
  {
    if wheels == [] {
    } else {
      var w, x, y := wheels[0].Width(), Value(a[1..], wheels[1..]), Value(b[1..], wheels[1..]);
      MixedDigitsUnique(w, a[0], x, b[0], y);
      ValueIsInjective(a[1..], b[1..], wheels[1..]);
      assert a == [a[0]] + a[1..] && b == [b[0]] + b[1..];
    }
  }

  /** Turning the wheels counts by one, and returns every wheel to its first candidate after a full cycle. */
  lemma {:induction false} TurnCounts(digits: seq<nat>, wheels: seq<Wheel>)
    requires Turning(wheels) && IsPosition(digits, wheels)
    ensures IsPosition(Turned(digits, wheels), wheels)
    ensures Value(Turned(digits, wheels), wheels) ==
      if Value(digits, wheels) + 1 < Total(wheels) then Value(digits, wheels) + 1 else 0
  {
    if wheels == [] {
    } else {
      var w, tail := wheels[0].Width(), wheels[1..];
      var rest, total := Value(digits[1..], tail), Total(tail);
      var turned := Turned(digits, wheels);
      ValueBelowTotal(digits[1..], tail);
      CarryArithmetic(w, digits[0], rest, total);
      if digits[0] + 1 < w {
        assert turned[1..] == digits[1..];
      } else {
        TurnCounts(digits[1..], tail);
        assert turned[1..] == Turned(digits[1..], tail);
      }
    }
  }

  lemma CarryArithmetic(w: nat, d: nat, rest: nat, total: nat)
    requires d < w && rest < total
    ensures d + 1 < w ==> d + w * rest + 1 < w * total
    ensures d + 1 == w && rest + 1 < total ==> d + w * rest + 1 == w * (rest + 1) < w * total
    ensures d + 1 == w && rest + 1 == total ==> d + w * rest + 1 == w * total && w * 0 == 0
  {
    MulNext(w, rest);
    MulNext(w, rest + 1);
    MulMonotonic(w, rest + 1, total);
    if rest + 1 < total {
      MulMonotonic(w, rest + 2, total);
    }
  }

  /** The position showing every wheel's first candidate. */
  ghost function Start(wheels: seq<Wheel>): seq<nat> {
    seq(|wheels|, _ => 0)
  }

  lemma {:induction false} StartIsZero(wheels: seq<Wheel>)
    requires Turning(wheels)
    ensures IsPosition(Start(wheels), wheels) && Value(Start(wheels), wheels) == 0
  {
    if wheels == [] {
    } else {
      assert wheels[0].candidates != [];
      StartIsZero(wheels[1..]);
      assert Start(wheels)[1..] == Start(wheels[1..]);
    }
  }

  /** After a full cycle every wheel is back at its first candidate. */
  lemma CycleReturns(digits: seq<nat>, wheels: seq<Wheel>)
    requires Turning(wheels) && IsPosition(digits, wheels) && Value(digits, wheels) + 1 == Total(wheels)
    ensures Turned(digits, wheels) == Start(wheels)
  {
    TurnCounts(digits, wheels);
    StartIsZero(wheels);
    ValueIsInjective(Turned(digits, wheels), Start(wheels), wheels);
  }

  // ---- the product read position by position -------------------------------

  lemma {:induction false} ProductLength(wheels: seq<Wheel>)
    ensures |Product(wheels)| == Total(wheels)
  {
    if wheels == [] {
    } else {
      ProductLength(wheels[1..]);
      UniformConcat(Spin(wheels[0], Product(wheels[1..])), wheels[0].Width());
    }
  }

  /** The n-th way of the nested product is what the wheels read at the position that stands for n. */
  lemma {:induction false} ProductAt(digits: seq<nat>, wheels: seq<Wheel>)
    requires IsPosition(digits, wheels)
    ensures Value(digits, wheels) < |Product(wheels)|
    ensures Product(wheels)[Value(digits, wheels)] == Reading(digits, wheels)
  {
    ProductLength(wheels);
    ValueBelowTotal(digits, wheels);
    if wheels == [] {
    } else {
      var w, tails, rest := wheels[0].Width(), Product(wheels[1..]), Value(digits[1..], wheels[1..]);
      ProductAt(digits[1..], wheels[1..]);
      UniformConcatAt(Spin(wheels[0], tails), w, rest, digits[0]);
    }
  }

  // ---- when no two ways are the same -----------------------------------------

  lemma {:induction false} DigitAndCarry(n: nat, w: nat) returns (digit: nat, carry: nat)
    requires w >= 1
    ensures digit < w && n == digit + w * carry
  {
    if n < w {
      return n, 0;
    }
    digit, carry := DigitAndCarry(n - w, w);
    MulNext(w, carry);
    carry := carry + 1;
  }

  /** Every number below the total has a position. */
  lemma {:induction false} PositionOf(n: nat, wheels: seq<Wheel>) returns (digits: seq<nat>)
    requires Turning(wheels) && n < Total(wheels)
    ensures IsPosition(digits, wheels) && Value(digits, wheels) == n
  {
    if wheels == [] {
      return [];
    }
    assert wheels[0].candidates != [];
    var w := wheels[0].Width();
    var digit, carry := DigitAndCarry(n, w);
    if carry >= Total(wheels[1..]) {
      MulMonotonic(w, Total(wheels[1..]), carry);
      assert false;
    }
    var rest := PositionOf(carry, wheels[1..]);
    digits := [digit] + rest;
    assert digits[1..] == rest;
  }

  /** Every wheel that shows one candidate at a time shows a different one at every step. */
  ghost predicate CandidatesDiffer(wheels: seq<Wheel>) {
    forall i :: 0 <= i < |wheels| && !wheels[i].every ==> Distinct(wheels[i].candidates)
  }

  /** With different candidates, different positions read differently. */
  lemma {:induction false} ReadingIsInjective(a: seq<nat>, b: seq<nat>, wheels: seq<Wheel>)
    requires IsPosition(a, wheels) && IsPosition(b, wheels) && CandidatesDiffer(wheels)
    requires Reading(a, wheels) == Reading(b, wheels)
    ensures a == b
  {
    if wheels == [] {
    } else {
      var wheel, x, y := wheels[0], Reading(a[1..], wheels[1..]), Reading(b[1..], wheels[1..]);
      assert |wheel.At(a[0])| == |wheel.At(b[0])|;
      assert wheel.At(a[0]) == (wheel.At(a[0]) + x)[..|wheel.At(a[0])|] == wheel.At(b[0]);
      assert x == (wheel.At(a[0]) + x)[|wheel.At(a[0])|..] == y;
      if !wheel.every {
        assert wheel.At(a[0])[0].1 == wheel.At(b[0])[0].1 && Distinct(wheel.candidates);
      }
      assert forall i :: 0 <= i < |wheels[1..]| ==> wheels[1..][i] == wheels[i + 1];
      ReadingIsInjective(a[1..], b[1..], wheels[1..]);
      assert a == [a[0]] + a[1..] && b == [b[0]] + b[1..];
    }
  }

  lemma {:induction false} SameReading(a: seq<nat>, b: seq<nat>, wheels: seq<Wheel>)
    requires IsPosition(a, wheels) && IsPosition(b, wheels)
    requires forall i :: 0 <= i < |wheels| ==> wheels[i].At(a[i]) == wheels[i].At(b[i])
    ensures Reading(a, wheels) == Reading(b, wheels)
  {
    if wheels == [] {
    } else {
      assert wheels[0].At(a[0]) == wheels[0].At(b[0]);
      SameReading(a[1..], b[1..], wheels[1..]);
    }
  }

  /** Two equal candidates of one wheel make two equal ways. */
  lemma RepeatedCandidate(wheels: seq<Wheel>, i: nat, d: nat, e: nat)
    requires Turning(wheels) && i < |wheels| && !wheels[i].every && d < e < |wheels[i].candidates|
    requires wheels[i].candidates[d] == wheels[i].candidates[e]
    ensures !Distinct(Product(wheels))
  {
    StartIsZero(wheels);
    var a, b := Start(wheels)[i := d], Start(wheels)[i := e];
    forall k | 0 <= k < |wheels| ensures wheels[k].At(a[k]) == wheels[k].At(b[k]) {
    }
    SameReading(a, b, wheels);
    ProductAt(a, wheels);
    ProductAt(b, wheels);
    assert a[i] != b[i];
    if Value(a, wheels) == Value(b, wheels) {
      ValueIsInjective(a, b, wheels);
      assert false;
    }
    assert Product(wheels)[Value(a, wheels)] == Product(wheels)[Value(b, wheels)];
  }

  /** No way is listed twice exactly when no wheel that shows one candidate at a time holds a candidate twice. */
  lemma ProductDiffersIff(wheels: seq<Wheel>)
    requires Turning(wheels)
    ensures Distinct(Product(wheels)) <==> CandidatesDiffer(wheels)
  {
    ProductLength(wheels);
    if CandidatesDiffer(wheels) {
      forall m: nat, n: nat | m < n < |Product(wheels)| ensures Product(wheels)[m] != Product(wheels)[n] {
        var a := PositionOf(m, wheels);
        var b := PositionOf(n, wheels);
        ProductAt(a, wheels);
        ProductAt(b, wheels);
        if Reading(a, wheels) == Reading(b, wheels) {
          ReadingIsInjective(a, b, wheels);
        }
      }
    }
    if !CandidatesDiffer(wheels) {
      var i: nat :| i < |wheels| && !wheels[i].every && !Distinct(wheels[i].candidates);
      var d: nat, e: nat :| d < e < |wheels[i].candidates| && wheels[i].candidates[d] == wheels[i].candidates[e];
      RepeatedCandidate(wheels, i, d, e);
    }
  }
}
