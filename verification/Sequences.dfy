/** Concatenation, truncation and folds over sequences, shared by every other module. */
module Sequences {

  function Min(a: nat, b: nat): nat {
    if a <= b then a else b
  }

  /** The first `n` elements, or all of them when there are fewer. */
  function Take<T>(n: nat, s: seq<T>): seq<T> {
    s[..Min(n, |s|)]
  }

  function Concat<T>(parts: seq<seq<T>>): seq<T> {
    if parts == [] then [] else parts[0] + Concat(parts[1..])
  }

  /** No two places hold the same. */
  ghost predicate Distinct<T>(s: seq<T>) {
    forall i, j :: 0 <= i < j < |s| ==> s[i] != s[j]
  }

  lemma AppendAssociates<T>(a: seq<T>, b: seq<T>, c: seq<T>)
    ensures (a + b) + c == a + (b + c)
  {
  }

  lemma {:induction false} ConcatAppend<T>(a: seq<seq<T>>, b: seq<seq<T>>)
    ensures Concat(a + b) == Concat(a) + Concat(b)
  {
    if a == [] {
      assert a + b == b;
    } else {
      assert (a + b)[1..] == a[1..] + b;
      ConcatAppend(a[1..], b);
    }
  }

  lemma ConcatOne<T>(part: seq<T>)
    ensures Concat([part]) == part
  {
    assert [part][1..] == [];
  }

  /** Appending one part to a concatenation. */
  lemma ConcatPush<T>(a: seq<seq<T>>, part: seq<T>)
    ensures Concat(a + [part]) == Concat(a) + part
  {
    ConcatAppend(a, [part]);
    ConcatOne(part);
  }

  /** What is taken of `a + b` is what is taken of `a`, then what still fits of `b`. */
  lemma TakeAppend<T>(n: nat, a: seq<T>, b: seq<T>)
    ensures Take(n, a + b) == Take(n, a) + Take(n - |Take(n, a)|, b)
  {
  }

  /** A concatenation of parts of one length is indexed by part and place. */
  lemma {:induction false} UniformConcat<T>(parts: seq<seq<T>>, w: nat)
    requires forall i :: 0 <= i < |parts| ==> |parts[i]| == w
    ensures |Concat(parts)| == w * |parts|
  {
    if parts == [] {
    } else {
      UniformConcat(parts[1..], w);
      MulNext(w, |parts| - 1);
    }
  }

  lemma {:induction false} UniformConcatAt<T>(parts: seq<seq<T>>, w: nat, i: nat, j: nat)
    requires forall k :: 0 <= k < |parts| ==> |parts[k]| == w
    requires i < |parts| && j < w
    ensures j + w * i < |Concat(parts)| && Concat(parts)[j + w * i] == parts[i][j]
  {
    if i == 0 {
    } else {
      UniformConcatAt(parts[1..], w, i - 1, j);
      MulNext(w, i - 1);
      var k := j + w * (i - 1);
      assert Concat(parts)[w + k] == Concat(parts[1..])[k];
    }
  }

  lemma MulNext(w: int, x: int)
    ensures w * (x + 1) == w * x + w
  {
  }

  lemma MulMonotonic(w: nat, a: int, b: int)
    requires a <= b
    ensures w * a <= w * b
  {
  }

  /** A digit below `w` and a quotient are determined by the number they make. */
  lemma MixedDigitsUnique(w: nat, d: nat, q: int, e: nat, p: int)
    requires d < w && e < w && d + w * q == e + w * p
    ensures d == e && q == p
  {
    MulNext(w, q);
    MulNext(w, p);
    if q < p {
      MulMonotonic(w, q + 1, p);
    } else if p < q {
      MulMonotonic(w, p + 1, q);
    }
  }

  lemma {:induction false} InConcat<T>(parts: seq<seq<T>>, x: T)
    ensures x in Concat(parts) <==> exists i :: 0 <= i < |parts| && x in parts[i]
  {
    if parts == [] {
    } else {
      InConcat(parts[1..], x);
      if x in Concat(parts[1..]) {
        var i :| 0 <= i < |parts[1..]| && x in parts[1..][i];
        assert x in parts[i + 1];
      }
      if i :| 0 <= i < |parts| && x in parts[i] {
        if i > 0 {
          assert x in parts[1..][i - 1];
        }
      }
    }
  }
}
