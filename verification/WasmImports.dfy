/** The import section without its two targets, and where every other function import went. */
module WasmImports {
  import opened Bytes
  import opened Wrappers
  import opened Sequences
  import opened Leb128
  import opened WasmBinary
  import opened WasmCopying
  import opened WasmInstructions
  import opened WasmModule

  const TARGET_MODULE: Text := Ascii("wasi_snapshot_preview1")
  const ENVIRON_GET: Text := Ascii("environ_get")
  const ENVIRON_SIZES_GET: Text := Ascii("environ_sizes_get")

  predicate IsTarget(i: Import) {
    i.external.Function? && i.moduleName == TARGET_MODULE && (i.name == ENVIRON_GET || i.name == ENVIRON_SIZES_GET)
  }

  /** A removed import: its function index, its name and its type. */
  datatype Removed = Removed(index: nat, name: Text, typeIndex: nat)

  /** `imported` function imports come before these. */
  function Removals(imports: seq<Import>, imported: nat): seq<Removed> {
    if imports == [] then []
    else
      var i := imports[0];
      (if IsTarget(i) then [Removed(imported, i.name, i.external.typeIndex)] else [])
      + Removals(imports[1..], if i.external.Function? then imported + 1 else imported)
  }

  /** The imports in the function index space. */
  function FunctionImports(imports: seq<Import>): (functions: seq<Import>)
    ensures |functions| <= |imports|
  {
    if imports == [] then []
    else (if imports[0].external.Function? then [imports[0]] else []) + FunctionImports(imports[1..])
  }

  function KeptImports(imports: seq<Import>): (kept: seq<Import>)
    ensures |kept| <= |imports|
  {
    if imports == [] then []
    else (if IsTarget(imports[0]) then [] else [imports[0]]) + KeptImports(imports[1..])
  }

  // ---- the rewrite -----------------------------------------------------------------------------

  /** An import and the bytes it came from. */
  datatype Item = Item(value: Import, bytes: seq<byte>)

  function ReadItem(typeCount: nat): Parser<Item> {
    (s: seq<byte>) =>
      match ReadImport(typeCount)(s)
      case Bad => Bad
      case Got(value, rest) => if |rest| <= |s| then Got(Item(value, Used(s, rest)), rest) else Bad
  }

  function Values(items: seq<Item>): seq<Import> {
    if items == [] then [] else [items[0].value] + Values(items[1..])
  }

  /** The bytes of the items that are kept. */
  function KeptBytes(items: seq<Item>): (kept: seq<seq<byte>>)
    ensures |kept| <= |items|
  {
    if items == [] then []
    else (if IsTarget(items[0].value) then [] else [items[0].bytes]) + KeptBytes(items[1..])
  }

  datatype ImportRewrite = ImportRewrite(payload: seq<byte>, imported: nat, first: Removed, second: Removed)

  function RewriteImports(payload: seq<byte>, typeCount: nat): Option<ImportRewrite> {
    match Whole(Vector(ReadItem(typeCount)))(payload)
    case None => None
    case Some(items) => RewriteItems(items)
  }

  /** Exactly two targets, of one type. */
  function RewriteItems(items: seq<Item>): Option<ImportRewrite> {
    var removed := Removals(Values(items), 0);
    if |removed| != 2 || removed[0].typeIndex != removed[1].typeIndex then None
    else Some(ImportRewrite(EncodeVector(KeptBytes(items)), |FunctionImports(Values(items))|, removed[0], removed[1]))
  }

  // ---- the kept imports are read back ------------------------------------------------------------

  ghost predicate ItemsRead(typeCount: nat, count: nat, s: seq<byte>) {
    match ReadItems(ReadImport(typeCount), count, s)
    case Bad => ReadItems(ReadItem(typeCount), count, s).Bad?
    case Got(values, rest) =>
      var items := ReadItems(ReadItem(typeCount), count, s);
      && items.Got? && items.rest == rest
      && |items.value| == count && Values(items.value) == values
      && |rest| + |Concat(KeptBytes(items.value))| <= |s|
      && PrintsEach(ReadImport(typeCount), KeptBytes(items.value), KeptImports(values))
  }

  lemma {:induction false} ItemsAreRead(typeCount: nat, count: nat, s: seq<byte>)
    requires Exact(ReadImport(typeCount))
    ensures ItemsRead(typeCount, count, s)
  {
    hide ReadImport, Prints, PrintsEach, Concat, IsTarget;
    var p := ReadImport(typeCount);
    if count == 0 {
      NoneKept(p);
    } else if p(s).Got? {
      assert ExactAt(p, s);
      var value, rest := p(s).value, p(s).rest;
      ItemsAreRead(typeCount, count - 1, rest);
      if ReadItems(p, count - 1, rest).Got? {
        var items := ReadItems(ReadItem(typeCount), count - 1, rest).value;
        var all := [Item(value, Used(s, rest))] + items;
        assert all[1..] == items;
        assert ([value] + Values(items))[1..] == Values(items);
        ConcatFirst(Used(s, rest), KeptBytes(items));
        if IsTarget(value) {
          assert KeptBytes(all) == KeptBytes(items);
          assert KeptImports([value] + Values(items)) == KeptImports(Values(items));
        } else {
          PrintsEachPush(p, Used(s, rest), value, KeptBytes(items), KeptImports(Values(items)));
        }
      }
    }
  }

  lemma NoneKept<T>(p: Parser<T>)
    ensures PrintsEach(p, [], []) && Concat<byte>([]) == []
  {
  }

  /** What the rewrite of an import section says about its imports. */
  ghost predicate Rewrites(typeCount: nat, payload: seq<byte>, rewrite: ImportRewrite) {
    var imports := Whole(Vector(ReadImport(typeCount)))(payload);
    && imports.Some?
    && Selects(imports.value, rewrite)
    && |rewrite.payload| <= |payload|
    && Whole(Vector(ReadImport(typeCount)))(rewrite.payload) == Some(KeptImports(imports.value))
  }

  ghost predicate Selects(imports: seq<Import>, rewrite: ImportRewrite) {
    var removed := Removals(imports, 0);
    && |removed| == 2 && removed[0].typeIndex == removed[1].typeIndex
    && rewrite.imported == |FunctionImports(imports)|
    && rewrite.first == removed[0] && rewrite.second == removed[1]
  }

  predicate Rewritable(imports: seq<Import>) {
    var removed := Removals(imports, 0);
    |removed| == 2 && removed[0].typeIndex == removed[1].typeIndex
  }

  /** The rewrite succeeds exactly on import sections that hold two targets of one type. */
  lemma ImportsAreRewritten(payload: seq<byte>, typeCount: nat)
    ensures var imports := Whole(Vector(ReadImport(typeCount)))(payload);
            RewriteImports(payload, typeCount).Some? <==> imports.Some? && Rewritable(imports.value)
    ensures RewriteImports(payload, typeCount).Some? ==>
              Rewrites(typeCount, payload, RewriteImports(payload, typeCount).value)
  {
    hide ReadImport, Removals, FunctionImports, KeptImports, KeptBytes;
    ImportIsExact(typeCount);
    U32IsExact();
    var p := ReadImport(typeCount);
    if U32()(payload).Got? {
      assert ExactAt(U32(), payload);
      EncodingIsShortest(payload);
      var count, rest := U32()(payload).value, U32()(payload).rest;
      ItemsAreRead(typeCount, count, rest);
      if Whole(Vector(p))(payload).Some? && RewriteImports(payload, typeCount).Some? {
        var items := ReadItems(ReadItem(typeCount), count, rest).value;
        EncodeIsMonotonic(|KeptBytes(items)|, count);
        VectorPrints(p, KeptBytes(items), KeptImports(Values(items)));
        WholePrints(Vector(p), EncodeVector(KeptBytes(items)), KeptImports(Values(items)));
      }
    }
  }

  lemma {:induction false} EncodeIsMonotonic(a: nat, b: nat)
    requires a <= b
    ensures |Encode(a)| <= |Encode(b)|
  {
    if a < 128 {
    } else {
      EncodeIsMonotonic(a / 128, b / 128);
    }
  }

  // ---- where the function imports went -------------------------------------------------------------

  /** Removing the targets and looking at functions only can be done in either order. */
  lemma {:induction false} FiltersCommute(imports: seq<Import>)
    ensures FunctionImports(KeptImports(imports)) == KeptImports(FunctionImports(imports))
  {
    if imports == [] {
    } else {
      var first, rest := imports[0], imports[1..];
      FiltersCommute(rest);
      FilterPush(first, KeptImports(rest));
      FilterPush(first, FunctionImports(rest));
    }
  }

  lemma FilterPush(i: Import, rest: seq<Import>)
    ensures FunctionImports([i] + rest) == (if i.external.Function? then [i] else []) + FunctionImports(rest)
    ensures KeptImports([i] + rest) == (if IsTarget(i) then [] else [i]) + KeptImports(rest)
    ensures FunctionImports([] + rest) == FunctionImports(rest) && KeptImports([] + rest) == KeptImports(rest)
  {
    assert ([i] + rest)[1..] == rest && [] + rest == rest;
  }

  ghost predicate IsRemoval(functions: seq<Import>, imported: nat, r: Removed) {
    && imported <= r.index < imported + |functions|
    && IsTarget(functions[r.index - imported])
    && functions[r.index - imported].name == r.name
    && functions[r.index - imported].external.typeIndex == r.typeIndex
  }

  function WithoutOne(functions: seq<Import>, at: nat): seq<Import>
    requires at < |functions|
  {
    functions[..at] + functions[at + 1..]
  }

  /** No target: everything is kept. */
  lemma {:induction false} NothingRemoved(imports: seq<Import>, imported: nat)
    requires Removals(imports, imported) == []
    ensures KeptImports(FunctionImports(imports)) == FunctionImports(imports)
  {
    if imports == [] {
    } else {
      var next := if imports[0].external.Function? then imported + 1 else imported;
      NothingRemoved(imports[1..], next);
      FilterPush(imports[0], FunctionImports(imports[1..]));
    }
  }

  lemma RemovalPush(first: Import, functions: seq<Import>, imported: nat, r: Removed)
    requires IsRemoval(functions, imported + 1, r)
    ensures IsRemoval([first] + functions, imported, r)
  {
    assert ([first] + functions)[r.index - imported] == functions[r.index - (imported + 1)];
  }

  lemma WithoutPush(first: Import, functions: seq<Import>, at: nat)
    requires at < |functions|
    ensures WithoutOne([first] + functions, at + 1) == [first] + WithoutOne(functions, at)
  {
  }

  lemma WithoutFirst(first: Import, functions: seq<Import>)
    ensures WithoutOne([first] + functions, 0) == functions
  {
  }

  /** The removals and the function imports after the first import. */
  lemma RemovalsUnfold(imports: seq<Import>, imported: nat)
    requires imports != []
    ensures var i, rest := imports[0], imports[1..];
      if !i.external.Function? then
        Removals(imports, imported) == Removals(rest, imported) && FunctionImports(imports) == FunctionImports(rest)
      else
        && FunctionImports(imports) == [i] + FunctionImports(rest)
        && Removals(imports, imported)
           == (if IsTarget(i) then [Removed(imported, i.name, i.external.typeIndex)] else []) + Removals(rest, imported + 1)
  {
  }

  ghost predicate OneIsRemoved(functions: seq<Import>, imported: nat, r: Removed) {
    IsRemoval(functions, imported, r) && KeptImports(functions) == WithoutOne(functions, r.index - imported)
  }

  ghost predicate TwoAreRemoved(functions: seq<Import>, imported: nat, r: Removed, q: Removed) {
    && IsRemoval(functions, imported, r) && IsRemoval(functions, imported, q) && r.index < q.index
    && KeptImports(functions) == WithoutOne(WithoutOne(functions, q.index - imported), r.index - imported)
  }

  lemma OneIsRemovedHere(first: Import, functions: seq<Import>, imported: nat)
    requires IsTarget(first) && KeptImports(functions) == functions
    ensures OneIsRemoved([first] + functions, imported, Removed(imported, first.name, first.external.typeIndex))
  {
    FilterPush(first, functions);
    WithoutFirst(first, functions);
  }

  lemma OneIsRemovedLater(first: Import, functions: seq<Import>, imported: nat, r: Removed)
    requires !IsTarget(first) && OneIsRemoved(functions, imported + 1, r)
    ensures OneIsRemoved([first] + functions, imported, r)
  {
    hide IsTarget, WithoutOne;
    FilterPush(first, functions);
    RemovalPush(first, functions, imported, r);
    WithoutPush(first, functions, r.index - (imported + 1));
  }

  lemma TwoAreRemovedHere(first: Import, functions: seq<Import>, imported: nat, q: Removed)
    requires IsTarget(first) && OneIsRemoved(functions, imported + 1, q)
    ensures TwoAreRemoved([first] + functions, imported, Removed(imported, first.name, first.external.typeIndex), q)
  {
    hide IsTarget, WithoutOne;
    FilterPush(first, functions);
    RemovalPush(first, functions, imported, q);
    WithoutPush(first, functions, q.index - (imported + 1));
    WithoutFirst(first, WithoutOne(functions, q.index - (imported + 1)));
  }

  lemma TwoAreRemovedLater(first: Import, functions: seq<Import>, imported: nat, r: Removed, q: Removed)
    requires !IsTarget(first) && TwoAreRemoved(functions, imported + 1, r, q)
    ensures TwoAreRemoved([first] + functions, imported, r, q)
  {
    hide IsTarget, WithoutOne;
    FilterPush(first, functions);
    RemovalPush(first, functions, imported, r);
    RemovalPush(first, functions, imported, q);
    WithoutAt(functions, q.index - (imported + 1), 0);
    WithoutPush(first, functions, q.index - (imported + 1));
    WithoutPush(first, WithoutOne(functions, q.index - (imported + 1)), r.index - (imported + 1));
  }

  lemma {:induction false} OneRemoved(imports: seq<Import>, imported: nat)
    requires |Removals(imports, imported)| == 1
    ensures OneIsRemoved(FunctionImports(imports), imported, Removals(imports, imported)[0])
  {
    hide OneIsRemoved, Removals, FunctionImports, KeptImports;
    NoImports(imported);
    var first, rest := imports[0], imports[1..];
    RemovalsUnfold(imports, imported);
    if !first.external.Function? {
      OneRemoved(rest, imported);
    } else if IsTarget(first) {
      NothingRemoved(rest, imported + 1);
      OneIsRemovedHere(first, FunctionImports(rest), imported);
    } else {
      OneRemoved(rest, imported + 1);
      OneIsRemovedLater(first, FunctionImports(rest), imported, Removals(rest, imported + 1)[0]);
    }
  }

  lemma NoImports(imported: nat)
    ensures Removals([], imported) == []
  {
  }

  lemma {:induction false} TwoRemoved(imports: seq<Import>, imported: nat)
    requires |Removals(imports, imported)| == 2
    ensures TwoAreRemoved(FunctionImports(imports), imported, Removals(imports, imported)[0], Removals(imports, imported)[1])
  {
    hide OneIsRemoved, TwoAreRemoved, Removals, FunctionImports, KeptImports;
    NoImports(imported);
    var first, rest := imports[0], imports[1..];
    RemovalsUnfold(imports, imported);
    if !first.external.Function? {
      TwoRemoved(rest, imported);
    } else if IsTarget(first) {
      OneRemoved(rest, imported + 1);
      TwoAreRemovedHere(first, FunctionImports(rest), imported, Removals(rest, imported + 1)[0]);
    } else {
      var removed := Removals(rest, imported + 1);
      TwoRemoved(rest, imported + 1);
      TwoAreRemovedLater(first, FunctionImports(rest), imported, removed[0], removed[1]);
    }
  }

  /** The renumbering a rewrite uses. */
  function RemovalOf(rewrite: ImportRewrite): Removal {
    Removal(rewrite.imported, rewrite.first.index, rewrite.second.index)
  }

  /** A kept function import is found at its new index. */
  lemma KeptImportsMove(imports: seq<Import>, rewrite: ImportRewrite, index: nat)
    requires Selects(imports, rewrite) && |imports| < TWO_32 && index < rewrite.imported
    ensures InOrder(RemovalOf(rewrite))
    ensures var before, after := FunctionImports(imports), FunctionImports(KeptImports(imports));
      && |before| == rewrite.imported && |after| == rewrite.imported - 2
      && IsRemoval(before, 0, rewrite.first) && IsRemoval(before, 0, rewrite.second)
      && (Kept(RemovalOf(rewrite), index) ==>
            NewIndex(RemovalOf(rewrite), index) < |after|
            && after[NewIndex(RemovalOf(rewrite), index)] == before[index])
  {
    hide FunctionImports, KeptImports, Removals, IsRemoval, WithoutOne;
    TwoRemoved(imports, 0);
    FiltersCommute(imports);
    WithoutTwo(FunctionImports(imports), rewrite.first, rewrite.second, index);
  }

  lemma WithoutTwo(functions: seq<Import>, r: Removed, q: Removed, k: nat)
    requires IsRemoval(functions, 0, r) && IsRemoval(functions, 0, q) && r.index < q.index && k < |functions|
    ensures |WithoutOne(functions, q.index)| == |functions| - 1 && |WithoutOne(WithoutOne(functions, q.index), r.index)| == |functions| - 2
    ensures r.index < |functions| - 1 && q.index < |functions|
    ensures var left := WithoutOne(WithoutOne(functions, q.index), r.index);
      k != r.index && k != q.index ==>
        var moved := k - (if r.index < k then 1 else 0) - (if q.index < k then 1 else 0);
        0 <= moved < |left| && left[moved] == functions[k]
  {
    hide IsTarget;
    WithoutAt(functions, q.index, k);
    if k != q.index {
      WithoutAt(WithoutOne(functions, q.index), r.index, if q.index < k then k - 1 else k);
    }
  }

  lemma WithoutAt(functions: seq<Import>, at: nat, k: nat)
    requires at < |functions| && k < |functions|
    ensures |WithoutOne(functions, at)| == |functions| - 1
    ensures k < at ==> WithoutOne(functions, at)[k] == functions[k]
    ensures k > at ==> WithoutOne(functions, at)[k - 1] == functions[k]
  {
  }
}
