/** Claims path pointers over JSON credentials (OpenID4VP 1.0, section 7.1.1). */
module DcqlPath {
  import opened Bytes
  import opened Wrappers

  datatype Json =
    | Null
    | Bool(flag: bool)
    | Number(number: int)
    | String(text: Text)
    | Array(items: seq<Json>)
    | Object(members: map<Text, Json>)

  /** One component of a pointer. `Every` is the wire format's `null`. */
  datatype PathComponent = Key(name: Text) | Index(index: nat) | Every

  type Path = seq<PathComponent>

  datatype PathError = TypeMismatch(at: nat) | Empty | Malformed

  /** The children one component selects of one element; `None` when the element is of the wrong kind. */
  function Step(component: PathComponent, element: Json): Option<seq<Json>> {
    match component
    case Key(name) =>
      if !element.Object? then None
      else Some(if name in element.members then [element.members[name]] else [])
    case Every =>
      if !element.Array? then None else Some(element.items)
    case Index(i) =>
      if !element.Array? then None
      else Some(if i < |element.items| then [element.items[i]] else [])
  }

  // ---- the recursive meaning -----------------------------------------------

  /** Depth first: everything `path` selects below `element`, branches of the wrong kind selecting nothing. */
  ghost function Select(element: Json, path: Path): seq<Json>
    decreases |path|, 0, 0
  {
    if path == [] then [element]
    else match Step(path[0], element)
      case None => []
      case Some(children) => SelectAll(children, path[1..])
  }

  ghost function SelectAll(elements: seq<Json>, path: Path): seq<Json>
    decreases |path|, 1, |elements|
  {
    if elements == [] then [] else Select(elements[0], path) + SelectAll(elements[1..], path)
  }

  /** Some branch that survives the components before `at` has the wrong kind for component `at`. */
  ghost predicate WrongAt(root: Json, path: Path, at: nat) {
    at < |path| && exists element :: element in Select(root, path[..at]) && Step(path[at], element).None?
  }

  lemma {:induction false} SelectAllAppend(a: seq<Json>, b: seq<Json>, path: Path)
    ensures SelectAll(a + b, path) == SelectAll(a, path) + SelectAll(b, path)
    decreases |a|
  {
    if a == [] {
      assert a + b == b;
    } else {
      assert (a + b)[1..] == a[1..] + b;
      SelectAllAppend(a[1..], b, path);
    }
  }

  lemma {:induction false} SelectAllNothing(elements: seq<Json>)
    ensures SelectAll(elements, []) == elements
    decreases |elements|
  {
    if elements == [] {
    } else {
      SelectAllNothing(elements[1..]);
    }
  }

  /** A pointer followed by another selects, in order, what the second selects of each element of the first. */
  lemma {:induction false} SelectCompose(element: Json, p: Path, q: Path)
    ensures Select(element, p + q) == SelectAll(Select(element, p), q)
    decreases |p|, 0, 0
  {
    if p == [] {
      assert p + q == q;
      assert SelectAll([element], q) == Select(element, q) + SelectAll([], q);
    } else {
      assert (p + q)[1..] == p[1..] + q;
      var step := Step(p[0], element);
      if step.Some? {
        SelectAllCompose(step.value, p[1..], q);
      }
    }
  }

  lemma {:induction false} SelectAllCompose(elements: seq<Json>, p: Path, q: Path)
    ensures SelectAll(elements, p + q) == SelectAll(SelectAll(elements, p), q)
    decreases |p|, 1, |elements|
  {
    if elements == [] {
    } else {
      SelectCompose(elements[0], p, q);
      SelectAllCompose(elements[1..], p, q);
      SelectAllAppend(Select(elements[0], p), SelectAll(elements[1..], p), q);
    }
  }

  lemma {:induction false} InSelectAll(elements: seq<Json>, path: Path, x: Json)
    ensures x in SelectAll(elements, path) <==> exists e :: e in elements && x in Select(e, path)
    decreases |elements|
  {
    if elements == [] {
    } else {
      InSelectAll(elements[1..], path, x);
      if x in SelectAll(elements[1..], path) {
        var e :| e in elements[1..] && x in Select(e, path);
        assert e in elements;
      }
      if e :| e in elements && x in Select(e, path) {
        assert e == elements[0] || e in elements[1..];
      }
    }
  }

  /** A mismatch in the second pointer is a mismatch of it on an element the first selected. */
  lemma WrongAtCompose(root: Json, p: Path, q: Path, k: nat)
    ensures WrongAt(root, p + q, |p| + k) <==> exists e :: e in Select(root, p) && WrongAt(e, q, k)
  {
    if k < |q| {
      assert (p + q)[..|p| + k] == p + q[..k];
      assert (p + q)[|p| + k] == q[k];
      SelectCompose(root, p, q[..k]);
      var reached := Select(root, p);
      if WrongAt(root, p + q, |p| + k) {
        var x :| x in SelectAll(reached, q[..k]) && Step(q[k], x).None?;
        InSelectAll(reached, q[..k], x);
        var e :| e in reached && x in Select(e, q[..k]);
        assert WrongAt(e, q, k);
      }
      if e :| e in reached && WrongAt(e, q, k) {
        var x :| x in Select(e, q[..k]) && Step(q[k], x).None?;
        InSelectAll(reached, q[..k], x);
      }
    }
  }

  /** Appending one component takes one step from every element selected so far. */
  lemma SelectOneMore(root: Json, path: Path, at: nat)
    requires at < |path|
    ensures Select(root, path[..at + 1]) == SelectAll(Select(root, path[..at]), [path[at]])
  {
    assert path[..at + 1] == path[..at] + [path[at]];
    SelectCompose(root, path[..at], [path[at]]);
  }

  /** The children of one more element join the end of the next selection. */
  lemma SelectAllPush(elements: seq<Json>, element: Json, component: PathComponent)
    requires Step(component, element).Some?
    ensures SelectAll(elements + [element], [component])
         == SelectAll(elements, [component]) + Step(component, element).value
  {
    SelectAllAppend(elements, [element], [component]);
    assert [component][1..] == [];
    SelectAllNothing(Step(component, element).value);
    assert SelectAll([element], [component]) == Select(element, [component]) + SelectAll([], [component]);
  }

  // ---- what is resolved ------------------------------------------------------

  /** The answer to a pointer: all it selects, or the first component some branch has the wrong kind for, or nothing. */
  ghost predicate IsResolution(root: Json, path: Path, r: Result<seq<Json>, PathError>) {
    && (r == Err(Malformed) <==> path == [])
    && (forall at :: r == Err(TypeMismatch(at)) <==>
          WrongAt(root, path, at) && forall k: nat :: k < at ==> !WrongAt(root, path, k))
    && (r == Err(Empty) <==> path != [] && (forall k: nat :: !WrongAt(root, path, k)) && Select(root, path) == [])
    && (r.Ok? <==> path != [] && (forall k: nat :: !WrongAt(root, path, k)) && Select(root, path) != [])
    && (r.Ok? ==> r.value == Select(root, path))
  }

  lemma OneComponent(root: Json, component: PathComponent)
    ensures WrongAt(root, [component], 0) <==> Step(component, root).None?
    ensures forall k: nat :: k > 0 ==> !WrongAt(root, [component], k)
    ensures Select(root, [component]) == if Step(component, root).Some? then Step(component, root).value else []
  {
    assert [component][..0] == [] && Select(root, []) == [root] && [component][1..] == [];
    assert root in Select(root, [component][..0]);
    if Step(component, root).Some? {
      SelectAllNothing(Step(component, root).value);
    }
  }

  /** An index gives the element that many places from the front. */
  lemma IndexResolves(root: Json, i: nat, r: Result<seq<Json>, PathError>)
    requires IsResolution(root, [Index(i)], r)
    ensures match root
            case Array(items) => r == if i < |items| then Ok([items[i]]) else Err(Empty)
            case _ => r == Err(TypeMismatch(0))
  {
    OneComponent(root, Index(i));
  }

  /** A key gives the member of that name. */
  lemma KeyResolves(root: Json, name: Text, r: Result<seq<Json>, PathError>)
    requires IsResolution(root, [Key(name)], r)
    ensures match root
            case Object(members) => r == if name in members then Ok([members[name]]) else Err(Empty)
            case _ => r == Err(TypeMismatch(0))
  {
    OneComponent(root, Key(name));
  }

  /** `Every` gives all elements in order. */
  lemma EveryResolves(root: Json, r: Result<seq<Json>, PathError>)
    requires IsResolution(root, [Every], r)
    ensures match root
            case Array(items) => r == if items != [] then Ok(items) else Err(Empty)
            case _ => r == Err(TypeMismatch(0))
  {
    OneComponent(root, Every);
  }

  // ---- the algorithm -------------------------------------------------------

  /**
   * Level by level, left to right. The first element of the wrong kind aborts with the component's place;
   * a missing key or index drops its element; an empty final selection is an error of its own.
   */
  method ResolveJson(root: Json, path: Path) returns (r: Result<seq<Json>, PathError>)
    ensures IsResolution(root, path, r)
  {
    if |path| == 0 {
      return Err(Malformed);
    }
    var selected := [root];
    for at := 0 to |path|
      invariant selected == Select(root, path[..at])
      invariant forall k: nat :: k < at ==> !WrongAt(root, path, k)
    {
      var next := [];
      for j := 0 to |selected|
        invariant next == SelectAll(selected[..j], [path[at]])
        invariant forall e :: e in selected[..j] ==> Step(path[at], e).Some?
      {
        var children := Step(path[at], selected[j]);
        if children.None? {
          assert WrongAt(root, path, at);
          return Err(TypeMismatch(at));
        }
        SelectAllPush(selected[..j], selected[j], path[at]);
        assert selected[..j + 1] == selected[..j] + [selected[j]];
        next := next + children.value;
      }
      assert selected[..|selected|] == selected;
      SelectOneMore(root, path, at);
      selected := next;
    }
    assert path[..|path|] == path;
    if selected == [] {
      return Err(Empty);
    }
    return Ok(selected);
  }
}
