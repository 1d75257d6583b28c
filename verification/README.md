# Verified model of the SIROS digital-credentials matcher

This project models, in Dafny, the parts of the matcher repository whose behaviour is decided by loops, arithmetic
and wire formats, and proves what they promise. Each module follows one component:

- **Claims paths and DCQL** (`DcqlPath`, `DcqlQuery`, `DcqlEval`, `Odometer`, `Products`, `Combinations`,
  `CombinationFacts`, `CombinationCounts`, `CombinationRepeats`,
  `EnumerationLaws`, `DcqlEvalFacts`): evaluating an OpenID4VP query against held credentials and enumerating
  the combinations that satisfy it. The fast form, dials turned in place and levels cut to a limit, is proved to be
  a prefix of a plain depth-first enumeration; the counts of what was left out are compared with the true counts.
- **WebAssembly rewriting** (`Leb128`, `WasmBinary`, `WasmCopying`, `WasmInstructions`, `WasmSections`, `WasmModule`,
  `WasmImports`, `WasmStubs`, `WasmStrip`, `WasmSizes`, `WasmMeaning`, `WasmFunctions`, `WasmTyping`, `WasmExamples`,
  `WasmOpcodes`, `WasmLayout`; the readers and loops that step through bytes in place are in `WasmReader`, `WasmRewriter`, `WasmLoops`): replacing two imports by stubs and
  renumbering every function reference. A decoder gives bytes their meaning; the rewritten bytes are proved to decode
  to the old module with its functions moved. `WasmCopying.Preserves` is the one statement everything is built from:
  a copy accepts what the decoder accepts, uses the same bytes, and reads back as the changed value.
- **CBOR and the response check** (`Cbor`, `CborFacts`, `CborReader`, `Request`, `RequestFacts`, `Satisfiability`,
  `SatisfiabilityFacts`, `Response`, `ResponseFacts`, `ResponseErrors`): the strict reader against the repository's own encoder (RFC 8949, section 3), the reading and the
  satisfiability rules of a `zkp_req` request, and the check that ties a response to its request.
- **Time** (`Calendar`, `ProofTime`): the two closed-form Gregorian conversions against counting days one at a time,
  and the 20-byte rendering on top of them (RFC 3339, section 5.6).
- **base64url** (`Base64Url`): the bit accumulator against RFC 4648, section 5.
- **Stateful pieces** (`BumpAllocator`, `EntrySets`, `Matcher`, `MatcherTrace`, `CredentialBlob`): the bump allocator over every run,
  the host-call trace of every invocation, and the icon table of the blob builder against the matcher's lookup.
- `Wrappers`, `Sequences` and `Bytes` hold what the others share. All text is modelled by its UTF-8 bytes, which `Utf8`
  ties to RFC 3629.

What reader, writer and meaning share, such as the table of opcodes, the names of members, limits and section ids, is
stated once more on bytes and inputs (`WasmOpcodes`, `WasmLayout`, `DcqlEvalFacts`, `EnumerationLaws`, `RequestFacts`,
`SatisfiabilityFacts`, `ResponseErrors`, `MatcherTrace`), so that it is not its own only witness.

Code that changes state in place is modelled by classes and loops (`Products.Dial`, `CborReader.Reader`,
`WasmReader.Reader`, `WasmRewriter.Output`, `BumpAllocator.SimpleAllocator`, `EntrySets.HostSets`,
`CredentialBlob.SirosBlobBuilder`, and the methods beside the functions), each proved equal to a function; the
theorems are about those functions.

`dafny verify dfyconfig.toml` checks the whole project.

## Where the code and its documentation differ

- `Dropped::Exact` is documented as the exact number not built (`crates/siros-dcql/src/eval.rs:148`). When a group is
  cut and a later group has several ways, the skips of the earlier group are not multiplied by the later widths, so
  the number is too low. `CombinationCounts.CutGroupsAreUndercounted` is a request for which `Exact(2)` is reported
  and three are left out; by `CombinationCounts.DroppedAgainstTruth` an exact report is the truth if and only if every
  group entered with more than `limit` ways before it adds a single way.
- `Dropped::any` is documented as whether anything was dropped (`crates/siros-dcql/src/eval.rs:170`). For a query that
  passes `Query::validate` it is so (`CombinationCounts.DroppedAnyIff`); with a repeated credential id a cut group may
  come before one without ways (`CombinationCounts.CutBeforeNothing`). `CombinationCounts.DroppedAnyExactly`: it is so
  if and only if the request is not satisfiable, every group has ways, or none is cut before one that has none.
- The rewrite's documentation says that the stubs occupy the vacated slots (`scripts/strip_wasi_environ.py:14-25`). A
  module without a code section is accepted and gets no stub bodies (`WasmExamples.StubsWithoutBodies`);
  `WasmFunctions.StripMovesFunctions`: a stub has a body if and only if the module has a code section.
- The error text asks for both imports, but the code counts targets, so one import twice is accepted
  (`WasmExamples.SameImportTwice`). `WasmTyping.BothAreReplacedIff`: both functions are replaced if and only if the two
  removed imports have different names.
- Both stubs are said to have the type (i32, i32) -> i32 and to do as the functions they replace, but the code only
  asks the imports to share some type, and asks for no memory (`WasmExamples.WronglyTypedStubs`,
  `WasmExamples.StoreWithoutMemory`). `WasmTyping.StubsAreWellTypedIff`: both stubs are well typed if and only if the
  module has a code section, the shared type has one i32 result and, when `environ_sizes_get` is among the two, its
  first two parameters are i32 and the module has a memory. `WasmTyping.DocumentedTypeFits`: with a memory the
  documented type will do.
- A rewritten section may outgrow the 32-bit length its header can say; the encoder writes the length anyway and the
  result is not a module (`WasmExamples.OutgrownSection`). `WasmMeaning.StripPreservesMeaning`: the rewrite means the
  old module if and only if every old section leaves room, which `WasmSizes.FitsAfter` decides by arithmetic on the
  old section; below the size of `WasmMeaning.SmallModulesAreRewritten` it always does.
- The icon table casts offsets and lengths to 32 bits (`crates/siros-dc-matcher-ffi/src/lib.rs:263-269`), so a large
  icon is misread (`CredentialBlob.LargeIconReadsEmpty`, `CredentialBlob.IconPastTheEndIsLost`).
  `CredentialBlob.IconReadsBackIff`: an icon is read back whatever the icons contain if and only if it is empty, or
  starts and measures below 2^32 and ends within the reader's `usize`.
- The allocator records the pages it had at its first call and those it obtained itself, and takes memory beyond what
  it recorded to be its own. In this repository nothing else grows the memory: only `alloc` calls `memory_grow`
  (`crates/siros-dc-matcher-wasm/src/simple_allocator.rs:54`), so the other grower of `BumpAllocator.Elsewhere` would be
  the host or code linked in from elsewhere. `BumpAllocator.ForeignPageIff` says exactly when a page obtained that way is
  handed out, and `BumpAllocator.PagesAreAccountedFor` that without one the recorded pages are the real ones.

## Model

| member | source | states |
|---|---|---|
| DcqlPath.ResolveJson | crates/siros-dcql/src/path.rs:80-137 | The level-by-level loop returns the in-order selection of the recursive meaning. `TypeMismatch` carries the smallest component index at which any surviving element on any branch has the wrong kind; `Empty` arises only when no such index exists; an empty pointer is `Malformed`. |
| DcqlPath.IndexResolves | crates/siros-dcql/src/path.rs:119-127 | A pointer of one index resolves to exactly the element that many places from the front, to `Empty` past the end, and to a mismatch at 0 on anything but an array. |
| DcqlPath.KeyResolves | crates/siros-dcql/src/path.rs:99-107 | A pointer of one key resolves to the member of that name, to `Empty` without it, and to a mismatch at 0 on anything but an object. |
| DcqlPath.EveryResolves | crates/siros-dcql/src/path.rs:108-116 | The pointer of one `null` resolves to all elements of an array in order, to `Empty` on an empty one, and to a mismatch at 0 on anything else. |
| DcqlPath.SelectCompose | crates/siros-dcql/src/path.rs:92-130 | A pointer followed by another selects the concatenation, in order, of what the second selects in each element the first selects. |
| DcqlPath.WrongAtCompose | crates/siros-dcql/src/path.rs:99-127 | A wrong kind at a place of the second pointer is the same wrong kind inside some element the first pointer selects. |
| DcqlQuery.Validate | crates/siros-dcql/src/query.rs:192-205 | Accepts exactly the queries with non-empty, pairwise distinct credential ids and no repeated claim id; otherwise reports the first defect in document order. |
| DcqlQuery.ValidateClaimIds | crates/siros-dcql/src/query.rs:223-235 | Names the first claim id that an earlier claim of the same query already has. |
| DcqlQuery.ClaimIsUnambiguous | crates/siros-dcql/src/query.rs:213-220 | After validation, looking a claim up by id gives the only claim with that id. |
| DcqlEval.SelectClaimsIff | crates/siros-dcql/src/eval.rs:422-451 | Claim selection: nothing asked discloses nothing, claims alone are all or nothing, with sets the verifier's first satisfiable preference wins, sets without claims match no credential; both directions. |
| DcqlEvalFacts.CandidateWithClaimsIff | crates/siros-dcql/src/eval.rs:232-257 | Without claim sets the candidates are exactly the held credentials that are bound when binding is asked for, pass the policy and have every claim, with an allowed value where values are restricted; each discloses every claim in query order. |
| DcqlEvalFacts.CandidateWithSetsIff | crates/siros-dcql/src/eval.rs:422-478 | With claim sets, exactly the held credentials that pass and have all claims of some set, each disclosing the first set it has all of. |
| DcqlEvalFacts.MatchesAre | crates/siros-dcql/src/eval.rs:227-257 | The matches are one per query, in order, under its id, with its candidates and its `multiple`. |
| DcqlEvalFacts.SatisfiableIff | crates/siros-dcql/src/eval.rs:258-300 | A request is satisfiable exactly when some query has a candidate and, without sets, every query has; with sets, every required set has an option all of whose ids name a query with a candidate. |
| DcqlEval.CandidateIff | crates/siros-dcql/src/eval.rs:238-255 | A candidate is listed exactly when some held credential passes binding, policy and claim selection with that result. |
| DcqlEval.CandidatesFollowTheWallet | crates/siros-dcql/src/eval.rs:232-257 | The candidates come in wallet order. |
| DcqlEval.FindIsSatisfiedOne | crates/siros-dcql/src/eval.rs:218-220 | With unique ids the lookup by id and the search for any satisfied match with the id agree. |
| Odometer.TurnCounts | crates/siros-dcql/src/eval/products.rs:50-64 | One turn of the dials adds one to the mixed-radix number they show, first dial fastest, and the last position goes back to zero. |
| Odometer.ProductAt | crates/siros-dcql/src/eval/products.rs:50-58 | The n-th element of the nested product is what the dials read at the position whose mixed-radix number is n. |
| Odometer.ValueIsInjective | crates/siros-dcql/src/eval/products.rs:50-52 | Different positions of the dials have different numbers. |
| Odometer.ProductDiffersIff | crates/siros-dcql/src/eval/products.rs:47-64 | No combination is listed twice if and only if no dial that shows one candidate at a time holds a candidate twice. |
| Odometer.CycleReturns | crates/siros-dcql/src/eval/products.rs:164-168 | A turn at the last position brings every dial back to its first candidate. |
| Products.AddLaws | crates/siros-dcql/src/eval.rs:180-186 | Adding skip counts is commutative and associative, saturated or not, and stays exact only when both sides are exact and the sum fits. |
| Products.Dial.Turn | crates/siros-dcql/src/eval/products.rs:150-171 | In place: the dial moves to the next candidate in wallet order, or back to the first with a carry; a `multiple` query always carries. |
| Products.TurnAll | crates/siros-dcql/src/eval/products.rs:59-63 | The in-place loop over the dials, stopping at the first that does not carry, adds one to their number or wraps the whole odometer to zero. |
| Products.ReadAll | crates/siros-dcql/src/eval/products.rs:54-58 | Reading every dial in order appends the members of the element of the nested product at the position shown. |
| Products.CountProducts | crates/siros-dcql/src/eval/products.rs:32-45 | The checked multiplication gives the true product when it fits `usize`, and otherwise the largest `usize` with the overflow recorded. |
| Products.CandidateProducts | crates/siros-dcql/src/eval/products.rs:17-73 | The ways of one option are the first min(budget, product) elements of the nested product, and the skip count is the rest, exact if and only if the product fits `usize`; a dangling id or an empty query gives none. |
| Combinations.CutBeforeExtending | crates/siros-dcql/src/eval.rs:374-398 | Cutting a level to the limit before extending it loses nothing of the first `limit` extensions. |
| Combinations.LevelCompletes | crates/siros-dcql/src/eval.rs:374-402 | Building group by group gives the depth-first enumeration of the whole request. |
| Combinations.ExtendLevel | crates/siros-dcql/src/eval.rs:375-397 | One group: the next level is the cut of all extensions of the held partial lists, and the counts added are those of the options entered. |
| Combinations.Enumerate | crates/siros-dcql/src/eval.rs:320-408 | For every result and limit the list is exactly the first min(limit, N) elements of the unlimited enumeration, groups in order, then options, then odometer order, and the reported count is the sum of what each option skipped, exact if and only if every product and the sum fit `usize`, and otherwise between the largest `usize` less the limit and the true sum. |
| EnumerationLaws.OneOptionIsListed | crates/siros-dcql/src/eval.rs:336-352 | One required set of one option lists that option's ways in odometer order, each with the purpose of the set. |
| EnumerationLaws.OptionsAreListedInOrder | crates/siros-dcql/src/eval.rs:340-350 | One required set lists all combinations of its earlier options, then all of its later ones, wherever the options are divided. |
| EnumerationLaws.SetsAreListedInOrder | crates/siros-dcql/src/eval.rs:336-402 | The combinations of two lists of sets are every pair of theirs, the earlier sets slowest, members and purposes in the order of the sets. |
| EnumerationLaws.OptionalSetIsSkipped | crates/siros-dcql/src/eval.rs:336-339 | A set that is not required changes nothing, wherever it stands. |
| EnumerationLaws.NothingRequired | crates/siros-dcql/src/eval.rs:331-335 | Sets none of which is required list nothing. |
| EnumerationLaws.EveryQueryIsAsked | crates/siros-dcql/src/eval.rs:331-335 | Without sets the combinations are the ways of all queries in request order, without purposes. |
| CombinationFacts.WaysAreAnswers | crates/siros-dcql/src/eval/products.rs:47-64 | A way of an option is exactly one answer per query in option order: one candidate, or all candidates of a `multiple` query. |
| CombinationFacts.WaysDifferIff | crates/siros-dcql/src/eval/products.rs:47-64 | The ways of a satisfiable option are pairwise different exactly when each of its queries is `multiple` or has pairwise different candidates. |
| CombinationFacts.WaysOfDistinctCredentials | crates/siros-dcql/src/eval.rs:232-257 | A wallet that holds no credential id twice lists no way of any option twice, whatever the query and policy. |
| CombinationFacts.HeldTwiceIsListedTwice | crates/siros-dcql/src/eval.rs:232-257 | A credential held twice that answers a single query is listed twice. |
| CombinationRepeats.EnumerationDiffersIff | crates/siros-dcql/src/eval.rs:320-408 | A non-empty enumeration lists no combination twice if and only if no two choices of one satisfiable option per required group ask for the same ids in the same order, and no query named by those options is single with a candidate listed twice. |
| CombinationRepeats.DistinctCredentialsDifferIff | crates/siros-dcql/src/eval.rs:320-408 | For a wallet that holds no id twice the first half alone decides. |
| CombinationRepeats.OptionListedTwice | crates/siros-dcql/src/eval.rs:336-352 | One required set that lists a satisfiable option twice lists its combinations twice. |
| CombinationFacts.EnumerationIff | crates/siros-dcql/src/eval.rs:331-402 | A combination is enumerated exactly when, for each required set, it answers all queries of one satisfiable option (without sets, every query), with the purposes of the sets in set order. |
| CombinationFacts.EveryMemberIsPermitted | crates/siros-dcql/src/eval.rs:227-257 | Every member of every combination is a held credential that passed binding, policy and claim selection for the query it answers. |
| CombinationCounts.OffersIffSatisfiable | crates/siros-dcql/src/eval.rs:293-300 | With unique ids, something required and a limit of at least 1, the list is non-empty exactly when the request is `satisfiable`. |
| CombinationCounts.DuplicateIdsOfferNothing | crates/siros-dcql/src/eval.rs:336-352 | Without unique ids the two disagree: a request that is `satisfiable` and enumerates nothing. |
| CombinationCounts.OffersIff | crates/siros-dcql/src/eval.rs:320-352 | For any query, ids unique or not: the list is non-empty exactly when the request is `satisfiable`, something is required, and some option of every required set (without sets, every query) has candidates at the first match of each of its ids. |
| CombinationCounts.DroppedAgainstTruth | crates/siros-dcql/src/eval.rs:372-402 | Returned plus dropped never exceeds the true number of combinations; an exact report meets it if and only if every group entered with more than `limit` ways before it adds one way. |
| CombinationCounts.DroppedAnyIff | crates/siros-dcql/src/eval.rs:170-173 | For usable ids and a limit below the largest `usize`, a report is non-zero if and only if more combinations exist than the limit, whether the report is exact or not. |
| CombinationCounts.DroppedAnyExactly | crates/siros-dcql/src/eval.rs:170-173 | For any query: that equivalence holds if and only if the request is not satisfiable, every required group has ways at the first match of its ids, or no group was cut before one that has none. |
| CombinationCounts.CutBeforeNothing | crates/siros-dcql/src/eval.rs:170-173 | A concrete query with a repeated credential id for which something is reported dropped and no combination exists. |
| CombinationCounts.OneGroupIsCountedExactly | crates/siros-dcql/src/eval.rs:331-335 | With at most one required group an exact report is the true number left out. |
| CombinationCounts.CutGroupsAreUndercounted | crates/siros-dcql/src/eval.rs:383-385 | For a query with two required sets and two held credentials that answer both, cut to one combination: four exist, one is returned, and every report is `Exact(2)` though three are left out, against the documentation of `Dropped::Exact`. |
| CombinationCounts.ListCutGroups | crates/siros-dcql/src/eval.rs:320-408 | The enumeration of that request at limit 1 returns one combination and reports `Exact(2)`; four exist. |
| Leb128.U32RoundTrip | scripts/wasm_binary.py:122-150 | Reading undoes encoding for every 32-bit number, in at most five bytes, leaving exactly what follows. |
| Leb128.EncodingIsShortest | scripts/wasm_binary.py:142-150 | No accepted encoding of a number is shorter than the encoder's. |
| Leb128.GroupsAreExact | scripts/wasm_binary.py:122-133 | A LEB128 read uses a prefix and would read it the same before any other bytes. |
| Leb128.EncodeU32 | scripts/wasm_binary.py:142-150 | The encoder's loop emits the seven-bit groups, least significant first, the last without the continuation bit. |
| WasmReader.Reader.ReadLeb128 | scripts/wasm_binary.py:122-139 | The in-place loop reads the integer of the groups up to the first byte without the continuation bit, sign-extended when signed, and refuses one that is too long or does not fit its width. |
| WasmReader.Reader.Take | scripts/wasm_binary.py:66-73 | Gives a reader over exactly the next bytes and moves past them, or fails when fewer remain. |
| Utf8.ValidIff | scripts/wasm_binary.py:100-107 | A name is accepted exactly when its bytes encode some Unicode scalar values. |
| WasmReader.Reader.ReadName | scripts/wasm_binary.py:100-107 | A length, that many bytes, and only valid UTF-8. |
| WasmReader.Reader.StepOver | scripts/strip_wasi_environ.py:76-86 | For each kind of immediate the reader moves past exactly that operand. |
| WasmBinary.VectorPrints | scripts/wasm_binary.py:158-159 | An encoded vector of items that read back is read back whole, whatever follows. |
| WasmBinary.VectorIsExact | scripts/wasm_binary.py:109-111 | A vector read depends only on the bytes it uses. |
| WasmBinary.NamePrints | scripts/wasm_binary.py:153-155 | An encoded name is read back as itself, whatever follows. |
| WasmSections.ModuleRoundTrip | scripts/wasm_binary.py:213-236 | Encoded sections in order are read back with the same ids and payloads exactly when every payload's length fits 32 bits; otherwise the module is refused. |
| WasmLayout.HeaderIs | scripts/wasm_binary.py:213-222 | A module is read only behind the eight bytes of the magic number and version 1, and those alone are a module without sections. |
| WasmLayout.OrderIs | scripts/wasm_binary.py:163-187 | Two sections may follow each other exactly when both ids are 0 to 13 and one is custom or the first has the earlier place: ids 1 to 5, then 13, 6 to 9, 12, 10, 11. |
| WasmLayout.ContentsById | scripts/strip_wasi_environ.py:293-308 | Sections 2, 3, 7, 8, 9 and 10 hold imports, type indices, exports, the start function, element segments and bodies; every other section is kept as bytes. |
| WasmSections.ReadSectionsAreOrdered | scripts/wasm_binary.py:217-236 | What is read is in section order with every length below 2^32. |
| WasmSections.SectionIsUnique | scripts/wasm_binary.py:230-234 | At most one section of each kind except custom sections. |
| WasmLoops.SectionsOf | scripts/wasm_binary.py:217-236 | The loop over the module, checking header, id, size and order, gives the same sections or error as the recursive meaning. |
| WasmInstructions.RenumberingIsBijection | scripts/strip_wasi_environ.py:126-140 | For removed indices a < b < imported the renumbering is a bijection of every index space that holds the imports, with its inverse given. |
| WasmInstructions.RenumberingOrder | scripts/strip_wasi_environ.py:126-140 | It is monotone on kept imports, identity on defined functions, and sends exactly the removed imports to the first two defined positions. |
| WasmOpcodes.CallIsRenumbered | scripts/strip_wasi_environ.py:156-170 | For every index below 2^32 and whatever follows: 0x10 and 0xD2 with that index read as a reference to that function, and are copied as the same opcode with the new index. |
| WasmOpcodes.OnlyCallsNameFunctions | scripts/strip_wasi_environ.py:93-119 | An instruction that is read names a function exactly when it is `call` or `ref.func`, and then it names just one. |
| WasmOpcodes.OthersAreCopied | scripts/strip_wasi_environ.py:164-169 | Every other instruction is copied byte for byte. |
| WasmOpcodes.PlainInstruction | scripts/strip_wasi_environ.py:94-96 | The opcodes without operands use one byte. |
| WasmOpcodes.CallReads | scripts/strip_wasi_environ.py:100-112 | On all bytes: 0x10 and 0xD2 are followed by one function index. |
| WasmOpcodes.NumberReads | scripts/strip_wasi_environ.py:98-105 | On all bytes: branches, the accesses to locals, globals and tables, and the memory size are followed by one 32-bit number. |
| WasmOpcodes.TwoNumbersRead | scripts/strip_wasi_environ.py:101-104 | On all bytes: indirect calls, loads and stores are followed by two 32-bit numbers. |
| WasmOpcodes.SignedReads | scripts/strip_wasi_environ.py:97-107 | On all bytes: blocks are followed by a signed 33-bit number, integer constants by a signed number of their width. |
| WasmOpcodes.FloatReads | scripts/strip_wasi_environ.py:108-109 | On all bytes: floating-point constants are followed by four bytes or eight. |
| WasmOpcodes.TypesRead | scripts/strip_wasi_environ.py:102-110 | On all bytes: a null reference is followed by a value type, a typed select by a vector of them. |
| WasmOpcodes.ValueTypeReads | scripts/wasm_binary.py:250-252 | A value type is one of seven bytes. |
| WasmOpcodes.BranchTableReads | scripts/strip_wasi_environ.py:99 | On all bytes: a branch table is a vector of labels and one more label. |
| WasmOpcodes.PrefixedReads | scripts/strip_wasi_environ.py:114-119 | On all bytes: behind 0xFC the sub-opcodes 0 to 17 are followed by no number, two or one; any other is refused. |
| WasmOpcodes.OtherOpcodesAreRefused | scripts/strip_wasi_environ.py:151-153 | No other first byte is read. |
| WasmOpcodes.ConstantExpressionReads | scripts/strip_wasi_environ.py:181-190 | A constant expression is constants, `global.get`, `ref.null` and `ref.func` up to its first `end`. |
| WasmInstructions.InstructionIsPreserved | scripts/strip_wasi_environ.py:156-170 | The copy accepts exactly the instructions the decoder accepts, uses the same bytes, and its bytes decode to the same opcode and immediates with each function index renumbered. |
| WasmInstructions.ExpressionIsPreserved | scripts/strip_wasi_environ.py:173-178 | The same for every instruction stream to the end of a body. |
| WasmInstructions.ConstantExpressionIsPreserved | scripts/strip_wasi_environ.py:181-190 | The same for a constant expression up to its `end`, refusing opcodes not allowed in one. |
| WasmRewriter.CopyOne | scripts/strip_wasi_environ.py:156-170 | The method that copies one instruction into a buffer appends exactly those bytes and returns the opcode. |
| WasmRewriter.RewriteExpression | scripts/strip_wasi_environ.py:173-178 | The loop to the end of the reader returns the copied stream, or fails where decoding fails. |
| WasmRewriter.RewriteConstantExpression | scripts/strip_wasi_environ.py:181-190 | The loop up to `end` returns the copied expression and leaves the reader after it, or fails. |
| WasmModule.BodyIsPreserved | scripts/strip_wasi_environ.py:261-271 | A rewritten, resized body reads back with the same locals and the renumbered instructions, as long as its new contents stay below 2^32 bytes. |
| WasmModule.SegmentIsPreserved | scripts/strip_wasi_environ.py:274-281 | A rewritten element segment reads back with its offset expression and its functions renumbered; flags other than 0 are refused. |
| WasmModule.ExportIsPreserved | scripts/strip_wasi_environ.py:321-327 | A rewritten export reads back under the same name and kind; a function's index is renumbered and still within the module. |
| WasmLayout.ExportReads | scripts/wasm_binary.py:353-362 | A name, a kind of 0 to 4 and an index are read as that export; kind 0 is a function, which must exist. |
| WasmLayout.FunctionImportReads | scripts/wasm_binary.py:327-344 | Two names, kind 0 and a type index are read as that function import. |
| WasmLayout.LocalsRead | scripts/strip_wasi_environ.py:256-259 | A body's locals are a vector of groups, each a count and a value type. |
| WasmLayout.SignatureReads | scripts/wasm_binary.py:268-276 | A function type is 0x60, its parameters and its results. |
| WasmModule.ImportIsExact | scripts/wasm_binary.py:327-344 | Reading an import of any kind depends only on the bytes it uses. |
| WasmLayout.TargetsAre | scripts/strip_wasi_environ.py:34-35 | The targets are the function imports with the bytes of `wasi_snapshot_preview1` and of one of the two names. |
| WasmImports.ImportsAreRewritten | scripts/strip_wasi_environ.py:215-236 | The rewrite succeeds exactly on import sections with two targets of one type, and the new section reads back as the other imports in order. |
| WasmImports.KeptImportsMove | scripts/strip_wasi_environ.py:126-140 | Each kept function import is found in the new list at its new index, and the recorded removals are the targets with their names and type. |
| WasmLoops.RewriteImportSection | scripts/strip_wasi_environ.py:215-236 | The single pass that gathers kept bytes, removals and the import count computes that rewrite, with the same refusals. |
| WasmStubs.StubPrints | scripts/strip_wasi_environ.py:239-258 | Each hand-encoded stub decodes to a body without locals and the intended instructions. |
| WasmStubs.StubRuns | scripts/strip_wasi_environ.py:23-25 | Run on a stack machine, the shorter stub leaves memory as it was; the longer one clears the two words its arguments name, in order, or traps at one that is not all in memory; either ends with a zero as its only result. |
| WasmStrip.FunctionSectionIsRewritten | scripts/strip_wasi_environ.py:310-319 | The new function section reads back as the stubs' type twice, then the old types. |
| WasmStrip.CodeSectionIsRewritten | scripts/strip_wasi_environ.py:338-340 | The new code section reads back as both stubs, then the old bodies renumbered. |
| WasmStrip.ReferenceSectionIsRewritten | scripts/strip_wasi_environ.py:321-336 | Exports, the start function and element segments read back renumbered, and are refused when the old ones are. |
| WasmMeaning.StripAccepts | scripts/strip_wasi_environ.py:350-364 | The rewrite succeeds exactly on modules that decode, have an import and a function section, and import exactly two targets of one type. |
| WasmMeaning.StripPreservesMeaning | scripts/strip_wasi_environ.py:359-364 | The new bytes decode to the old module with its functions renumbered and its targets replaced, if and only if every old section leaves room for its longer indices and the stubs; otherwise they are no module at all. |
| WasmSizes.FitsAfterIff | scripts/strip_wasi_environ.py:293-340 | Whether a rewritten section's length fits 32 bits, by arithmetic on the old section: the widths of the new indices, counts and sizes, and the lengths of what is copied. |
| WasmSizes.SectionIsMeasured | scripts/strip_wasi_environ.py:293-340 | That arithmetic gives the exact length of every rewritten section, whichever its kind. |
| WasmMeaning.StrippedFitIff | scripts/strip_wasi_environ.py:359-364 | Every section of the new module has a 32-bit length exactly when the arithmetic says so for every old section. |
| WasmMeaning.SmallModulesAreRewritten | scripts/strip_wasi_environ.py:293-308 | A module of at most 858,993,446 bytes always leaves that room. |
| WasmFunctions.FunctionsFollow | scripts/strip_wasi_environ.py:126-140 | At the new index of each old function stands the same import, or the same definition with its calls renumbered, or, for a removed import, its stub with the import's type. |
| WasmFunctions.StripMovesFunctions | scripts/strip_wasi_environ.py:350-364 | On bytes: same types, same function count, every function at its new index, every export, start and element reference renumbered; a stub has a body if and only if the module has a code section. |
| WasmTyping.StubFitsIff | scripts/strip_wasi_environ.py:239-258 | By the typing rules of the stubs' instructions, a stub fits a type exactly when that has one i32 result and, for `environ_sizes_get`, two i32 parameters ahead of any others and there is a memory. |
| WasmTyping.DocumentedTypeFits | scripts/strip_wasi_environ.py:23-25 | With a memory, (i32, i32) -> i32 and any type with further parameters fit both stubs. |
| WasmTyping.StubsAreWellTypedIff | scripts/strip_wasi_environ.py:234-236 | Both stubs of a rewritten module are well typed if and only if the old module has a code section, the type the two imports share has the results and parameters both stubs need, and, when `environ_sizes_get` is among the two, the old module imports or defines a memory. |
| WasmTyping.MemoryStays | scripts/strip_wasi_environ.py:293-308 | The rewritten module has a memory exactly when the old one has. |
| WasmTyping.BothAreReplacedIff | scripts/strip_wasi_environ.py:230-233 | Both functions are replaced by their stubs if and only if the two removed imports have different names. |
| WasmExamples.StubsWithoutBodies | scripts/strip_wasi_environ.py:338-340 | A concrete module without a code section is accepted and both stubs are left declared without bodies. |
| WasmExamples.SameImportTwice | scripts/strip_wasi_environ.py:230-233 | A concrete module that imports `environ_get` twice is accepted: functions 0 and 1 are both its stub, and `environ_sizes_get` is replaced nowhere. |
| WasmExamples.WronglyTypedStubs | scripts/strip_wasi_environ.py:234-236 | A concrete module whose two targets have neither parameters nor results is accepted, and neither stub's body fits that type. |
| WasmExamples.StoreWithoutMemory | scripts/strip_wasi_environ.py:350-364 | A concrete module whose two targets have the documented type, and which has a code section but no memory, is accepted; the `environ_get` stub is well typed and the `environ_sizes_get` stub is not. |
| WasmExamples.OutgrownSection | scripts/strip_wasi_environ.py:310-319 | A concrete module with 2^32 - 6 definitions of one-byte type index is accepted, and its rewrite is not a module. |
| CborFacts.HeadReads | scripts/gen_zkp_req_response_vectors.py:20-25 | The reader's argument undoes the encoder's head for every major type and 64-bit number. |
| CborFacts.HeadIsShortest | scripts/gen_zkp_req_response_vectors.py:20-25 | No accepted head for the same number is shorter. |
| CborFacts.RoundTrip | crates/siros-dc-matcher-core/src/zkp_req_response.rs:388-466 | An encodable item printed before any bytes is read back as itself, leaving exactly those bytes: no negative integer, distinct keys, depth within the limit. |
| CborFacts.DepthIsSixteen | crates/siros-dc-matcher-core/src/zkp_req_response.rs:388-391 | An integer inside n tags is read for every n up to 16 and malformed for every n above. |
| CborFacts.SimpleReads | crates/siros-dc-matcher-core/src/zkp_req_response.rs:394-412 | On all bytes: 0xF4 and 0xF5 are the booleans, the other simple values and floats keep their own bytes, and 0xFC to 0xFF are malformed. |
| CborFacts.ReservedHeads | crates/siros-dc-matcher-core/src/zkp_req_response.rs:413-419 | Strings, arrays and maps of indefinite length are refused as such, other reserved heads as malformed. |
| CborFacts.DecodeEncode | scripts/gen_zkp_req_response_vectors.py:26-33 | Decoding the encoder's output gives the item. |
| CborFacts.ReadsAreLocal | crates/siros-dc-matcher-core/src/zkp_req_response.rs:388-466 | Appending bytes to an accepted item changes neither the item read nor its length. |
| CborFacts.AcceptedIsPrefixFree | crates/siros-dc-matcher-core/src/zkp_req_response.rs:469-477 | No accepted encoding is a proper prefix of another. |
| CborFacts.AcceptedIsWellFormed | crates/siros-dc-matcher-core/src/zkp_req_response.rs:469-477 | An accepted item uses all bytes, has no equal keys in any map at any level, nothing below the depth limit, and no more nodes than bytes. |
| CborReader.Reader.Argument | crates/siros-dc-matcher-core/src/zkp_req_response.rs:373-386 | In place: reads the big-endian argument of the width the info names, or refuses it. |
| CborReader.Reader.Item | crates/siros-dc-matcher-core/src/zkp_req_response.rs:388-466 | In place: the recursive reader with its loops gives the item, error and remaining bytes of the recursive meaning. |
| CborReader.Reader.MapBody | crates/siros-dc-matcher-core/src/zkp_req_response.rs:448-463 | The loop over entries refuses the first key equal to an earlier one and keeps the others in order. |
| CborReader.DecodeCbor | crates/siros-dc-matcher-core/src/zkp_req_response.rs:469-477 | The decoder refuses anything after the item. |
| Calendar.CivilIsCounted | crates/siros-dc-matcher-core/src/proof_time.rs:83-93 | The closed form gives, for every integer, the valid date reached by counting days one at a time from the epoch, whose number is that integer. |
| Calendar.CivilOfDayNumber | crates/siros-dc-matcher-core/src/zkp_req.rs:764-772 | Every valid date maps to a number and back to itself. |
| Calendar.NextDayIsNextNumber | crates/siros-dc-matcher-core/src/zkp_req.rs:764-772 | The next calendar day is valid and has the next number. |
| Calendar.DayNumberIff | crates/siros-dc-matcher-core/src/zkp_req.rs:764-772 | A date has a number exactly when counting that many days from the epoch reaches it. |
| Calendar.DatesInOrder | crates/siros-dc-matcher-core/src/zkp_req.rs:764-772 | Dates are ordered as their numbers are. |
| ProofTime.ParseIff | crates/siros-dc-matcher-core/src/proof_time.rs:100-139 | A text is accepted as a second exactly when it is the 20-byte form of an instant of the years 0 to 9999 that many seconds from the epoch. |
| ProofTime.ParseRender | crates/siros-dc-matcher-core/src/proof_time.rs:67-80 | Every second up to the end of 9999 renders in 20 bytes and parses back. |
| ProofTime.RenderExamples | crates/siros-dc-matcher-core/src/proof_time.rs:67-80 | The epoch and a second of a leap day, byte by byte. |
| ProofTime.RenderParse | crates/siros-dc-matcher-core/src/proof_time.rs:67-80 | An accepted text from 1970 on is what its second renders to; an earlier one does not render. |
| ProofTime.TextOrderIsTimeOrder | crates/siros-dc-matcher-core/src/proof_time.rs:100-139 | Accepted texts are ordered byte by byte as their seconds are, and equal only when the seconds are. |
| ProofTime.ToleranceIsUnbounded | crates/siros-dc-matcher-core/src/proof_time.rs:149-163 | Over all 64-bit inputs the saturating comparison is the inequality over the unbounded integers, with the same error first. |
| Base64Url.DecodeIff | crates/siros-dc-matcher-core/src/base64url.rs:39-85 | A text decodes to given bytes exactly when it is their unpadded encoding and within the limit. |
| Base64Url.DecodeIsInjective | crates/siros-dc-matcher-core/src/base64url.rs:77-82 | No two accepted texts decode to the same bytes. |
| Base64Url.ShiftKeepsLeftover | crates/siros-dc-matcher-core/src/base64url.rs:67-75 | Shifting the unmasked 32-bit accumulator completes the right byte and keeps the leftover bits, whatever lies above them. |
| Base64Url.DecodeWithLimit | crates/siros-dc-matcher-core/src/base64url.rs:39-85 | The loop over accumulator and bit count computes that decoding. |
| Request.ReadItems | crates/siros-dc-matcher-core/src/zkp_req.rs:397-427 | Every item is planned in its place under a handle no other has, or the first item's first defect is returned. |
| Request.ParamsLoseNothing | crates/siros-dc-matcher-core/src/zkp_req.rs:433-507 | The members of an accepted parameter object all survive: declared ones in their fields, the rest as they came. |
| RequestFacts.PseudonymParamsRead | crates/siros-dc-matcher-core/src/zkp_req.rs:433-507 | A pseudonym's parameters are accepted exactly when `config`, `prf` and `verifier_context` are texts or absent and `ver` is a 64-bit integer or absent; otherwise the first that is not, in the order config, ver, prf, context, is named; each goes to its own field. |
| RequestFacts.AgeCheckParamsRead | crates/siros-dc-matcher-core/src/zkp_req.rs:433-507 | An age check's `ge` and `le` are accepted exactly when absent or a calendar date written in ten characters; otherwise the first defect is named. |
| RequestFacts.OtherParamsRead | crates/siros-dc-matcher-core/src/zkp_req.rs:433-450 | Any other function keeps its parameters; parameters that are no object are refused for all. |
| RequestFacts.FullDateIff | crates/siros-dc-matcher-core/src/zkp_req.rs:513-530 | A text is a full date exactly when it is the written form of a calendar date of the years 0 to 9999. |
| RequestFacts.ItemMembers | crates/siros-dc-matcher-core/src/zkp_req.rs:397-427 | An item is planned exactly when its `fn_id` and `return` are texts and its `params` are accepted, under those. |
| RequestFacts.ItemDefects | crates/siros-dc-matcher-core/src/zkp_req.rs:397-427 | The defects of an item in order: no function id, no handle, a handle an earlier item has, parameters. |
| Satisfiability.Unsatisfiable | crates/siros-dc-matcher-core/src/zkp_req.rs:661-752 | The verdict is the envelope's first broken rule, else the first function's, else success. |
| Satisfiability.FirstUnserved | crates/siros-dc-matcher-core/src/zkp_req.rs:684-752 | The loop with its two counters returns the rule broken by the first function that breaks one, or success. |
| SatisfiabilityFacts.SatisfiableIff | crates/siros-dc-matcher-core/src/zkp_req.rs:661-752 | A request is satisfiable exactly when its format is one of two, it names the type of that format and no other, has no `vct_values`, keeps holder binding, and asks at most once for each kind of function, each with parameters that are served. |
| SatisfiabilityFacts.RefusalNames | crates/siros-dc-matcher-core/src/zkp_req.rs:661-752 | A refusal names the first of the request's own rules it breaks, or else the first rule that the first unserved function breaks, parameter by parameter in order. |
| Satisfiability.FunctionsServedIff | crates/siros-dc-matcher-core/src/zkp_req.rs:684-750 | The functions break no rule exactly when each is served on its own and no kind occurs twice. |
| Satisfiability.AgeServedIff | crates/siros-dc-matcher-core/src/zkp_req.rs:732-746 | With real dates for bounds an age check is served exactly when it has one and, with both, at least 365 calendar days lie between them, counted day by day; it is inverted exactly when the upper date is before the lower. |
| Satisfiability.DayNumberOfFullDate | crates/siros-dc-matcher-core/src/zkp_req.rs:754-761 | On a calendar date the lenient reading between dashes gives the date's day number. |
| Satisfiability.ReadBoundsAreDates | crates/siros-dc-matcher-core/src/zkp_req.rs:466-475 | Reading a request leaves only real dates as bounds. |
| Response.CheckIssuerKeySet | crates/siros-dc-matcher-core/src/zkp_req_response.rs:668-689 | The loop returns the certificates' bytes in order, or the first rule an entry breaks. |
| Response.CheckResults | crates/siros-dc-matcher-core/src/zkp_req_response.rs:720-778 | The loops check handles first and then values in request order, and return the first failure. |
| Response.CheckPresentation | crates/siros-dc-matcher-core/src/zkp_req_response.rs:584-665 | Members, offer, proof, keys, time and results are checked in the source's order. |
| Response.ParseResponse | crates/siros-dc-matcher-core/src/zkp_req_response.rs:529-569 | The entry of the query's id is checked presentation by presentation; the first failure is returned. |
| ResponseFacts.ResultsIff | crates/siros-dc-matcher-core/src/zkp_req_response.rs:720-778 | Results are accepted exactly when the map is, entry for entry, one fitting value per planned handle: a bijection, pseudonyms of their prf's length, predicates true; no such map is refused. |
| ResponseFacts.PresentationIff | crates/siros-dc-matcher-core/src/zkp_req_response.rs:584-665 | A presentation is accepted exactly when it is the base64url form, within the limit, of one CBOR map that carries it and it conforms to the plan. |
| ResponseFacts.PresentationSurvivesTheWire | crates/siros-dc-matcher-core/src/zkp_req_response.rs:584-665 | Every conforming presentation whose texts are texts and whose printed form in CBOR and base64url has at most 2,097,152 characters is accepted as exactly itself. |
| ResponseFacts.PresentationIsEncodable | crates/siros-dc-matcher-core/src/zkp_req_response.rs:584-665 | Such a presentation is within the reader's depth, has distinct keys and valid texts at every level. |
| ResponseErrors.RefusalIsTrue | crates/siros-dc-matcher-core/src/zkp_req_response.rs:584-778 | Every refusal of a presentation names a rule it breaks: the wrong shape, encoding, map, member, type or content, with the member, handle and limit it names. |
| ResponseErrors.EntryIs | crates/siros-dc-matcher-core/src/zkp_req_response.rs:537-553 | The presentations are those under the name the query's `id` gives. |
| ResponseErrors.MultipleIs | crates/siros-dc-matcher-core/src/zkp_req_response.rs:554-569 | Several are allowed exactly when the query's `multiple` is true. |
| ResponseErrors.ListRefusals | crates/siros-dc-matcher-core/src/zkp_req_response.rs:554-569 | The three refusals of the list itself are given exactly when it is no list, empty, or longer than allowed. |
| ResponseFacts.AcceptedResponse | crates/siros-dc-matcher-core/src/zkp_req_response.rs:554-569 | A response is accepted exactly when it lists at least one accepted presentation, several only when the query allows it, in order. |
| BumpAllocator.MaskRoundsDown | crates/siros-dc-matcher-wasm/src/simple_allocator.rs:34-38 | Clearing the bits below a power of two rounds down to its multiple, bit by bit. |
| BumpAllocator.SimpleAllocator.Alloc | crates/siros-dc-matcher-wasm/src/simple_allocator.rs:20-62 | In place, on 32-bit words none of whose operations wraps: both words and the memory size after the request, and 0 exactly when an addition would overflow or growth is refused. |
| BumpAllocator.AllocateIsSound | crates/siros-dc-matcher-wasm/src/simple_allocator.rs:20-62 | Every request keeps the invariant, including at 65,536 pages and after a failed first call. |
| BumpAllocator.EveryRunIsSound | crates/siros-dc-matcher-wasm/src/simple_allocator.rs:14-62 | After every sequence of requests, growth outcomes and growth by others: blocks are aligned, at or above the heap base, inside recorded memory, each ending before the next begins, and recorded pages never exceed real pages. |
| BumpAllocator.GrowthIs | crates/siros-dc-matcher-wasm/src/simple_allocator.rs:43-56 | Memory grows when the host agrees and at most 65,536 pages result; the recorded limit is pages of 65,536 bytes, one short of 2^32 at the top. |
| BumpAllocator.PagesAreAccountedFor | crates/siros-dc-matcher-wasm/src/simple_allocator.rs:46-56 | Once a block was given, the real pages are the recorded ones plus exactly those others obtained since the first block, so the two agree if and only if others obtained none. |
| BumpAllocator.RequestReachesIff | crates/siros-dc-matcher-wasm/src/simple_allocator.rs:34-47 | A request that yields a block, made with an alignment of at most a page while the next address is not beyond a page's first, is given part of that page if and only if rounded start plus size lies beyond that first address. |
| BumpAllocator.PageIsReachedIff | crates/siros-dc-matcher-wasm/src/simple_allocator.rs:20-62 | After any events from such a state on, some block shares an address with the page if and only if the next address has passed the page's first. |
| BumpAllocator.ForeignPageIff | crates/siros-dc-matcher-wasm/src/simple_allocator.rs:46-56 | A page that came into being through someone else's growth after the first block is handed out, in part, if and only if the next address has passed its first; with alignments above a page, only if. |
| BumpAllocator.ForeignPageIsHandedOut | crates/siros-dc-matcher-wasm/src/simple_allocator.rs:46-56 | A concrete run, by that theorem, in which a request is given part of someone else's page. |
| BumpAllocator.LargeAlignmentSkipsThePage | crates/siros-dc-matcher-wasm/src/simple_allocator.rs:34-38 | A concrete run with an alignment of two pages that passes such a page and gives no part of it. |
| BumpAllocator.BlocksAreDisjoint | crates/siros-dc-matcher-wasm/src/simple_allocator.rs:30-35 | No address belongs to two blocks, and every block lies inside the memory the instance has. |
| EntrySets.HostSets.Send | crates/android-credman/src/set.rs:251-271 | The calls of one entry in order: add, delegation (its own, else the default), link, fields, text, each only at its level. |
| EntrySets.EntryIsSent | crates/android-credman/src/set.rs:228-271 | One entry call by call, each from the level that provides it: the add call of its kind with its data, the level and whether something carried is left out, its own delegation or else the host's, its link, its fields, its text. |
| EntrySets.CallLevels | crates/android-credman/src/levels.rs:278-410 | Which level provides which call. |
| EntrySets.HostSets.AddEntrySet | crates/android-credman/src/sets_on_host.rs:28-44 | The declaration, then every alternative of every slot in position order. |
| EntrySets.SetIsWellFormed | crates/android-credman/src/sets_on_host.rs:28-44 | One declaration, first; every position filled; every field, link, delegation and text after its own entry; nothing above the level. |
| EntrySets.TraceIsWellFormed | crates/android-credman/src/set.rs:340-351 | The same over the whole trace of any list of sets. |
| EntrySets.DeclaredOnceIff | crates/android-credman/src/set.rs:315-321 | The host sees every set id at most once exactly when the sets have distinct ids. |
| EntrySets.ExtraIsSentIff | crates/android-credman/src/levels.rs:76-80 | Payment information, display text or a link an entry carries is sent exactly when the level reaches its call. |
| EntrySets.DisplaySkippedIff | crates/android-credman/src/set.rs:219-226 | `display_skipped` is true exactly when some text the entry carries is shown on it nowhere in the whole trace. |
| Matcher.SetIdsAreDistinct | crates/siros-dc-matcher-wasm/src/main.rs:195 | Set ids of different combinations differ. |
| Matcher.CombinationResolves | crates/siros-dc-matcher-wasm/src/main.rs:181-193 | Every credential a combination names is in the blob, so no combination is skipped. |
| Matcher.OfferedAreNumbered | crates/siros-dc-matcher-wasm/src/main.rs:175-274 | Combination i is offered as the set `siros-i` with one position per member unless it has none, and nothing else is offered. |
| Matcher.EveryTraceIsSound | crates/siros-dc-matcher-wasm/src/main.rs:116-276 | For every blob, request and level: each set id declared once, every position filled, fields after their entry, nothing called above level 2, no entry without an icon. |
| MatcherTrace.InvocationShows | crates/siros-dc-matcher-wasm/src/main.rs:167-276 | The whole trace of a satisfiable request: for each of the first 32 combinations in order its numbered set, and for each member at its place the entry with the id, title, subtitle and icon of the first stored credential of the member's id, then its rows. |
| MatcherTrace.InvocationWithoutOffers | crates/siros-dc-matcher-wasm/src/main.rs:116-173 | Otherwise the trace is empty, or for a wallet in debug mode one set of one entry named after the reason. |
| MatcherTrace.FoundIsStored | crates/siros-dc-matcher-wasm/src/main.rs:181-190 | The credential looked up is the first stored one of that id. |
| MatcherTrace.HostTextIs | crates/siros-dc-matcher-wasm/src/picker.rs:116-123 | Host texts differ only where a NUL became a space. |
| Matcher.EmitSet | crates/siros-dc-matcher-wasm/src/picker.rs:99-114 | Each member becomes one slot with one entry, in order; no member, no set. |
| Matcher.Run | crates/siros-dc-matcher-wasm/src/main.rs:116-276 | The decision path issues exactly the calls of the sets it decides on, or one diagnostic set, or nothing. |
| Matcher.Invoke | crates/siros-dc-matcher-wasm/src/main.rs:78-94 | A host below level 2 gets no call. |
| CredentialBlob.SirosBlobBuilder.AddIcon | crates/siros-dc-matcher-ffi/src/lib.rs:189-193 | In place: the other icons stay in order and the new one is last. |
| CredentialBlob.SirosBlobBuilder.Build | crates/siros-dc-matcher-ffi/src/lib.rs:257-308 | The loops with the offset map build the blob, or return the first credential whose icon is missing. |
| CredentialBlob.TableHoldsLastAdded | crates/siros-dc-matcher-ffi/src/lib.rs:184-193 | After every run of builder calls the table holds each id ever added once, with the bytes last added. |
| CredentialBlob.BuildFailsIff | crates/siros-dc-matcher-ffi/src/lib.rs:274-288 | Building fails exactly when some credential names an icon never added, and names the first. |
| CredentialBlob.IconsReadBack | crates/siros-dc-matcher-core/src/db.rs:187-192 | Every credential whose own icon is empty, or starts and measures below 2^32 and ends within the reader's `usize`, reads back the bytes last added under its icon id; its other fields are unchanged. |
| CredentialBlob.EachIconStoredOnce | crates/siros-dc-matcher-ffi/src/lib.rs:184-188 | The pool is the concatenation of the last bytes of every id, each once. |
| CredentialBlob.IconReadsBackIff | crates/siros-dc-matcher-core/src/db.rs:187-192 | For every run of builder calls and every reader of at least 32 bits: a credential reads its icon back whatever the icons' contents if and only if its icon is empty, or starts and measures below 2^32 and ends within the reader's `usize`. |
| CredentialBlob.IconPastTheEndIsLost | crates/siros-dc-matcher-core/src/db.rs:187-192 | An icon of 2 bytes after one of 2^32 - 1 bytes is not found by a 32-bit reader, and is found by one whose `usize` exceeds 2^32. |
| CredentialBlob.LargeIconReadsEmpty | crates/siros-dc-matcher-ffi/src/lib.rs:263-271 | An icon of 2^32 bytes is read back as no bytes. |

## Left out

- JSON parsing, serde and ciborium: JSON values, query objects and the decoded credential blob are taken as given, and
  a `CredentialBlob.Database` stands for its CBOR form.
- Floating point: a JSON number is an integer here, so the test that a claim path index or a parameter is integral is
  not modelled.
- Profile evaluation, circuit capabilities and request dispatch (`evaluator.rs`, `circuit_capabilities.rs`,
  `request.rs`): the policy is an arbitrary function of query and credential.
- Error texts and byte offsets: the WebAssembly readers have one failure, and error values elsewhere carry the fields
  that identify the rule broken. Which of two failures a rewrite reports first is not modelled for WebAssembly.
- Text shown in the picker (purposes, rows, entry metadata as JSON, clipping): arbitrary functions in
  `Matcher.Input`; the metadata object of an entry is modelled as its three values.
- Pointer widths: `usize` is a parameter where its size matters (the skip counts, the icon lookup) and unbounded
  elsewhere; the conversion of a CBOR length to `usize` never refuses a length the remaining bytes allow. Position
  counters and set lengths are unbounded where the source casts to `i32`.
- Wrap-around of the 64-bit day arithmetic, which only a bound that is no calendar date could reach; reading a request
  refuses such bounds.
- Capacity hints, the builder's mutex and its poisoning, the ZK capabilities a builder adds to the profile.
- `ref.func` in global initialisers: the global section is copied unchanged and taken to name no function, as every
  section the rewrite does not know.
- Validation of WebAssembly beyond what the scripts decode: the types and the semantics of instructions other than
  those in the stubs, what a memory section holds beyond its count, and the agreement of function and code sections.
- Proof verification, certificates and signatures, which the code does not check either.
- `scripts/check_panic_sites.py`, `scripts/rust_tokens.py`, `scripts/check_matcher_abi.py`, `scripts/repo_paths.py`:
  checks on the repository's own sources, outside the components modelled here.
- The bytes before the first host call (connecting, reading request and blob) and the host's own behaviour.
- CborFacts.RoundTrip: leaves negative integers out, because the reader drops their value.
- WasmMeaning.SmallModulesAreRewritten: a sufficient size, not the largest.
- Matcher.CombinationResolves: takes the held credentials to be those of the blob, as `credentials` builds them.
