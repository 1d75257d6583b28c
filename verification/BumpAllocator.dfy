/** The bump allocator of the WebAssembly build, over every sequence of requests and every outcome of growth. */
module BumpAllocator {
  import opened Wrappers
  import opened Sequences

  /** A 32-bit `usize`: Dafny proves that no operation on it wraps. */
  newtype usize = x: int | 0 <= x < 0x1_0000_0000

  const ADDRESSES := 0x1_0000_0000
  const PAGE_SIZE := 65536
  const MOST_PAGES := 65536
  const USIZE_MAX: usize := 0xFFFF_FFFF

  // ---- rounding by masking -------------------------------------------------------------------------

  predicate IsPowerOfTwo(n: nat) {
    n == 1 || (n > 1 && n % 2 == 0 && IsPowerOfTwo(n / 2))
  }

  /** The bitwise and of two numbers. */
  function And(a: nat, b: nat): nat {
    if a == 0 || b == 0 then 0 else (a % 2) * (b % 2) + 2 * And(a / 2, b / 2)
  }

  lemma {:induction false} AndOnes(a: nat, ones: nat)
    requires IsPowerOfTwo(ones + 1) && a <= ones
    ensures And(a, ones) == a
  {
    if a == 0 {
    } else {
      assert ones / 2 + 1 == (ones + 1) / 2;
      AndOnes(a / 2, ones / 2);
    }
  }

  lemma HalvesRound(a: nat, h: nat)
    requires h > 0
    ensures a - a % (2 * h) == 2 * (a / 2 - (a / 2) % h)
  {
    var q, t := a / 2 / h, (a / 2) % h;
    assert a / 2 == h * q + t;
    var low := 2 * t + a % 2;
    assert a == 2 * h * q + low && low < 2 * h;
    var p, d := a / (2 * h), a % (2 * h);
    assert a == d + 2 * h * p;
    MixedDigitsUnique(2 * h, low, q, d, p);
  }

  /** Clearing the bits below a power of two rounds down to a multiple of it. */
  lemma {:induction false} MaskRoundsDown(a: nat, align: nat, space: nat)
    requires IsPowerOfTwo(align) && IsPowerOfTwo(space) && align <= space && a < space
    ensures And(a, space - align) == a - a % align
  {
    if align == 1 {
      AndOnes(a, space - 1);
    } else {
      var b := space - align;
      assert b / 2 == space / 2 - align / 2 && b % 2 == 0;
      MaskRoundsDown(a / 2, align / 2, space / 2);
      HalvesRound(a, align / 2);
    }
  }

  lemma {:induction false} ProductIsPowerOfTwo(a: nat, b: nat)
    requires IsPowerOfTwo(a) && IsPowerOfTwo(b)
    ensures IsPowerOfTwo(a * b)
  {
    if a == 1 {
    } else {
      var h := a / 2;
      ProductIsPowerOfTwo(h, b);
      var half := h * b;
      assert a * b == 2 * half;
      assert half > 0 && (2 * half) / 2 == half && (2 * half) % 2 == 0;
    }
  }

  lemma AddressesArePowerOfTwo()
    ensures IsPowerOfTwo(ADDRESSES)
  {
    hide IsPowerOfTwo;
    PageSizeIsPowerOfTwo();
    ProductIsPowerOfTwo(65536, 65536);
  }

  // ---- one request -----------------------------------------------------------------------------------

  /** The allocator's two words and the memory the instance has. */
  datatype State = State(nextAddr: nat, currentPages: nat, pages: nat)

  datatype Block = Block(start: nat, size: nat, align: nat)

  /** A request and whether the host grants the growth it may need, or growth by someone else. */
  datatype Event = Request(size: nat, align: nat, granted: bool) | Elsewhere(pages: nat)

  predicate Possible(event: Event) {
    match event
    case Request(size, align, _) => size < ADDRESSES && IsPowerOfTwo(align) && align < ADDRESSES
    case Elsewhere(_) => true
  }

  /** Growth succeeds when the host grants it and the pages exist. */
  function Grown(pages: nat, more: nat, granted: bool): Option<nat> {
    if granted && pages + more <= MOST_PAGES then Some(pages + more) else None
  }

  /** Memory has at most 65,536 pages of 65,536 bytes, and grows only when the host agrees. */
  lemma GrowthIs(pages: nat, more: nat)
    ensures Grown(pages, more, true) == Some(pages + more) <==> pages + more <= 65536
    ensures Grown(pages, more, false) == None && (pages + more > 65536 ==> Grown(pages, more, true) == None)
    ensures Limit(3) == 196608 && Limit(65536) == 0xFFFF_FFFF
  {
  }

  function RoundUp(addr: nat, align: nat): nat
    requires align > 0
  {
    addr + align - 1 - (addr + align - 1) % align
  }

  /** The limit of the recorded memory, one short of 2^32 when every page is there. */
  function Limit(pages: nat): nat {
    Min(pages * PAGE_SIZE, ADDRESSES - 1)
  }

  function CeilingPages(bytes: nat): nat {
    (bytes + PAGE_SIZE - 1) / PAGE_SIZE
  }

  /** The state after a request, and the block it gives. */
  function Allocate(heapBase: nat, s: State, size: nat, align: nat, granted: bool): (State, Option<Block>)
    requires align > 0
  {
    var start := if s.nextAddr == 0 then State(0, s.pages, s.pages) else s;
    var next := if s.nextAddr == 0 then heapBase else s.nextAddr;
    var block := RoundUp(next, align);
    var end, limit := block + size, Limit(start.currentPages);
    if next + align - 1 >= ADDRESSES || end >= ADDRESSES then (start, None)
    else if end <= limit then (start.(nextAddr := end), Some(Block(block, size, align)))
    else
      var more := CeilingPages(end - limit);
      match Grown(start.pages, more, granted)
      case None => (start, None)
      case Some(pages) => (State(end, start.currentPages + more, pages), Some(Block(block, size, align)))
  }

  // ---- runs ------------------------------------------------------------------------------------------

  function Step(heapBase: nat, s: State, event: Event): (State, Option<Block>)
    requires Possible(event)
  {
    match event
    case Request(size, align, granted) => Allocate(heapBase, s, size, align, granted)
    case Elsewhere(pages) => (s.(pages := Min(s.pages + pages, MOST_PAGES)), None)
  }

  datatype Run = Run(state: State, blocks: seq<Block>)

  predicate PossibleEvents(events: seq<Event>) {
    forall i :: 0 <= i < |events| ==> Possible(events[i])
  }

  /** The state after the events and the non-null blocks they gave, in order. */
  function RunOf(heapBase: nat, initialPages: nat, events: seq<Event>): Run
    requires PossibleEvents(events)
  {
    if events == [] then Run(State(0, 0, initialPages), [])
    else
      var before := RunOf(heapBase, initialPages, events[..|events| - 1]);
      var (after, block) := Step(heapBase, before.state, events[|events| - 1]);
      Run(after, before.blocks + if block.Some? then [block.value] else [])
  }

  predicate IsAligned(start: nat, align: nat) {
    align > 0 && start % align == 0
  }

  /** The block lies in the heap, above its base, and below an address. */
  predicate LiesBelow(heapBase: nat, block: Block, address: nat) {
    heapBase <= block.start && block.start > 0 && block.start + block.size <= address
  }

  ghost predicate Sound(heapBase: nat, run: Run) {
    var s := run.state;
    && s.currentPages <= s.pages <= MOST_PAGES
    && (s.nextAddr == 0 ==> run.blocks == [])
    && (s.nextAddr != 0 ==> heapBase <= s.nextAddr <= Limit(s.currentPages))
    && (forall i :: 0 <= i < |run.blocks| ==>
          LiesBelow(heapBase, run.blocks[i], s.nextAddr) && IsAligned(run.blocks[i].start, run.blocks[i].align))
    && (forall i, j :: 0 <= i < j < |run.blocks| ==>
          run.blocks[i].start + run.blocks[i].size <= run.blocks[j].start)
  }

  lemma RoundUpIsAligned(addr: nat, align: nat)
    requires align > 0
    ensures addr <= RoundUp(addr, align) < addr + align && IsAligned(RoundUp(addr, align), align)
  {
    var x := addr + align - 1;
    assert x - x % align == align * (x / align);
    MultipleIsAligned(x / align, align);
  }

  lemma MultipleIsAligned(k: nat, align: nat)
    requires align > 0
    ensures (align * k) % align == 0
  {
    var q, r := (align * k) / align, (align * k) % align;
    assert align * k == r + align * q;
    MixedDigitsUnique(align, 0, k, r, q);
  }

  /** Enough pages, and never more than there are. */
  lemma GrowthSuffices(currentPages: nat, end: nat)
    requires currentPages <= MOST_PAGES && Limit(currentPages) < end < ADDRESSES
    ensures var more := CeilingPages(end - Limit(currentPages));
      0 < more && currentPages + more <= MOST_PAGES && end <= Limit(currentPages + more)
  {
  }

  lemma LimitFits(pages: nat)
    ensures Limit(pages) < ADDRESSES
  {
  }

  /** Masking, as the allocator rounds, is rounding up. */
  lemma RoundUpFits(addr: nat, align: nat)
    requires IsPowerOfTwo(align) && 0 < align < ADDRESSES && addr + align - 1 < ADDRESSES
    ensures And(addr + align - 1, ADDRESSES - align) == RoundUp(addr, align) < ADDRESSES
  {
    hide IsPowerOfTwo, And;
    AddressesArePowerOfTwo();
    MaskRoundsDown(addr + align - 1, align, ADDRESSES);
  }

  /** What one request keeps. */
  lemma AllocateIsSound(heapBase: nat, run: Run, size: nat, align: nat, granted: bool)
    requires 0 < heapBase < ADDRESSES && align > 0 && Sound(heapBase, run)
    ensures var (after, block) := Allocate(heapBase, run.state, size, align, granted);
      Sound(heapBase, Run(after, run.blocks + if block.Some? then [block.value] else []))
  {
    hide RoundUp, CeilingPages, Limit, IsAligned;
    var s := run.state;
    var next := if s.nextAddr == 0 then heapBase else s.nextAddr;
    RoundUpIsAligned(next, align);
    var (after, block) := Allocate(heapBase, s, size, align, granted);
    if block.Some? {
      var current := if s.nextAddr == 0 then s.pages else s.currentPages;
      if Limit(current) < block.value.start + size {
        GrowthSuffices(current, block.value.start + size);
      }
    } else {
      assert run.blocks + [] == run.blocks;
    }
  }

  /**
   * After every possible run every block is aligned, lies in the heap above its base and inside the memory the
   * instance has, and ends before the next begins; and the recorded pages never exceed the real ones.
   */
  lemma {:induction false} EveryRunIsSound(heapBase: nat, initialPages: nat, events: seq<Event>)
    requires 0 < heapBase < ADDRESSES && initialPages <= MOST_PAGES && PossibleEvents(events)
    ensures Sound(heapBase, RunOf(heapBase, initialPages, events))
  {
    hide Allocate, LiesBelow;
    if events == [] {
    } else {
      var earlier, last := events[..|events| - 1], events[|events| - 1];
      EveryRunIsSound(heapBase, initialPages, earlier);
      var before := RunOf(heapBase, initialPages, earlier);
      assert Possible(last);
      if last.Request? {
        PowerIsPositive(last.align);
        AllocateIsSound(heapBase, before, last.size, last.align, last.granted);
      } else {
        assert before.blocks + [] == before.blocks;
      }
    }
  }

  lemma PowerIsPositive(n: nat)
    requires IsPowerOfTwo(n)
    ensures n > 0
  {
  }

  /** In a sound run two blocks share no address, and each lies inside the memory the instance has. */
  lemma BlocksAreDisjoint(heapBase: nat, run: Run, i: nat, j: nat, address: nat)
    requires Sound(heapBase, run) && i < |run.blocks| && j < |run.blocks| && i != j
    ensures var b, c := run.blocks[i], run.blocks[j];
      && heapBase <= b.start && b.start + b.size <= run.state.pages * PAGE_SIZE
      && !(b.start <= address < b.start + b.size && c.start <= address < c.start + c.size)
  {
    assert LiesBelow(heapBase, run.blocks[i], run.state.nextAddr);
  }

  // ---- pages obtained by others --------------------------------------------------------------------

  /** The pages others obtained since the first block. */
  function ForeignPages(heapBase: nat, initialPages: nat, events: seq<Event>): int
    requires PossibleEvents(events)
  {
    if events == [] then 0
    else
      var earlier, last := events[..|events| - 1], events[|events| - 1];
      var before := RunOf(heapBase, initialPages, earlier).state;
      if before.nextAddr == 0 then 0
      else
        ForeignPages(heapBase, initialPages, earlier)
        + if last.Elsewhere? then RunOf(heapBase, initialPages, events).state.pages - before.pages else 0
  }

  /** The real pages are the recorded ones and those others obtained since the first block. */
  lemma {:induction false} PagesAreAccountedFor(heapBase: nat, initialPages: nat, events: seq<Event>)
    requires 0 < heapBase < ADDRESSES && initialPages <= MOST_PAGES && PossibleEvents(events)
    ensures var s := RunOf(heapBase, initialPages, events).state;
      s.nextAddr != 0 ==> s.pages == s.currentPages + ForeignPages(heapBase, initialPages, events)
  {
    hide RoundUp, CeilingPages, Limit, IsPowerOfTwo, Sound;
    if events == [] {
    } else {
      var earlier := events[..|events| - 1];
      PagesAreAccountedFor(heapBase, initialPages, earlier);
      PagesExist(heapBase, initialPages, earlier);
      assert Possible(events[|events| - 1]);
    }
  }

  lemma PagesExist(heapBase: nat, initialPages: nat, events: seq<Event>)
    requires 0 < heapBase < ADDRESSES && initialPages <= MOST_PAGES && PossibleEvents(events)
    ensures RunOf(heapBase, initialPages, events).state.pages <= MOST_PAGES
  {
    EveryRunIsSound(heapBase, initialPages, events);
  }

  // ---- when a block reaches a page -------------------------------------------------------------------

  /** The lowest address the next block may have. */
  function Next(heapBase: nat, s: State): nat {
    if s.nextAddr == 0 then heapBase else s.nextAddr
  }

  /** The block and the page share an address. */
  predicate Reaches(block: Block, page: nat) {
    block.size > 0 && block.start < (page + 1) * PAGE_SIZE && page * PAGE_SIZE < block.start + block.size
  }

  ghost predicate SomeReaches(blocks: seq<Block>, page: nat) {
    exists i :: 0 <= i < |blocks| && Reaches(blocks[i], page)
  }

  predicate AlignedWithinPages(events: seq<Event>) {
    forall i :: 0 <= i < |events| ==> events[i].Request? ==> events[i].align <= PAGE_SIZE
  }

  lemma {:induction false} PowerDivides(a: nat, b: nat)
    requires IsPowerOfTwo(a) && IsPowerOfTwo(b) && a <= b
    ensures b % a == 0
  {
    if a == 1 {
    } else {
      PowerDivides(a / 2, b / 2);
      var k := b / 2 / (a / 2);
      assert b / 2 == a / 2 * k;
      assert b == a * k by {
        assert b == 2 * (a / 2 * k) == (2 * (a / 2)) * k;
      }
      MultipleIsAligned(k, a);
    }
  }

  lemma PageSizeIsPowerOfTwo()
    ensures IsPowerOfTwo(PAGE_SIZE)
  {
    assert IsPowerOfTwo(2);
    hide IsPowerOfTwo;
    ProductIsPowerOfTwo(2, 2);
    ProductIsPowerOfTwo(4, 4);
    ProductIsPowerOfTwo(16, 16);
    ProductIsPowerOfTwo(256, 256);
  }

  /** Rounding up never passes a page boundary that the alignment divides. */
  lemma RoundUpStaysBelow(addr: nat, align: nat, page: nat)
    requires IsPowerOfTwo(align) && 0 < align <= PAGE_SIZE && addr <= page * PAGE_SIZE
    ensures RoundUp(addr, align) <= page * PAGE_SIZE
  {
    hide RoundUp, IsPowerOfTwo;
    PageSizeIsPowerOfTwo();
    PowerDivides(align, PAGE_SIZE);
    RoundUpIsAligned(addr, align);
    RoundedStaysBelow(addr, RoundUp(addr, align), align, PAGE_SIZE, page);
  }

  lemma RoundedStaysBelow(addr: nat, rounded: nat, align: nat, unit: nat, page: nat)
    requires align > 0 && unit % align == 0 && rounded % align == 0
    requires addr <= page * unit && rounded < addr + align
    ensures rounded <= page * unit
  {
    var j := unit / align;
    DividesOut(rounded, align);
    DividesOut(unit, align);
    Regroup(align, j, page);
    BelowNextMultiple(align, rounded / align, j * page);
  }

  lemma DividesOut(n: nat, align: nat)
    requires align > 0 && n % align == 0
    ensures n == align * (n / align)
  {
  }

  lemma Regroup(a: nat, b: nat, c: nat)
    ensures c * (a * b) == a * (b * c)
  {
  }

  lemma BelowNextMultiple(align: nat, k: nat, m: nat)
    requires align * k < align * m + align
    ensures align * k <= align * m
  {
    if k > m {
      MulMonotonic(align, m + 1, k);
      MulNext(align, m);
    } else {
      MulMonotonic(align, k, m);
    }
  }

  /** A request made below a page boundary gives a block that reaches the page exactly when it ends beyond it. */
  lemma RequestReachesIff(heapBase: nat, s: State, size: nat, align: nat, granted: bool, page: nat)
    requires IsPowerOfTwo(align) && 0 < align <= PAGE_SIZE && Next(heapBase, s) <= page * PAGE_SIZE
    requires Allocate(heapBase, s, size, align, granted).1.Some?
    ensures Reaches(Allocate(heapBase, s, size, align, granted).1.value, page)
       <==> page * PAGE_SIZE < RoundUp(Next(heapBase, s), align) + size
  {
    hide IsPowerOfTwo, RoundUp, CeilingPages, Limit;
    RoundUpStaysBelow(Next(heapBase, s), align, page);
  }

  /** In a sound run a page beyond the next address is reached by no block. */
  lemma UnreachedBeyondNext(heapBase: nat, run: Run, page: nat)
    requires Sound(heapBase, run) && SomeReaches(run.blocks, page)
    ensures page * PAGE_SIZE < run.state.nextAddr
  {
    var i :| 0 <= i < |run.blocks| && Reaches(run.blocks[i], page);
    assert LiesBelow(heapBase, run.blocks[i], run.state.nextAddr);
  }

  lemma ReachesPush(blocks: seq<Block>, block: Block, page: nat)
    ensures SomeReaches(blocks + [block], page) <==> SomeReaches(blocks, page) || Reaches(block, page)
  {
    var longer := blocks + [block];
    assert longer[|blocks|] == block && forall i :: 0 <= i < |blocks| ==> longer[i] == blocks[i];
  }

  /** What one event does to a page that no earlier block reached into. */
  lemma StepReaches(heapBase: nat, run: Run, event: Event, page: nat)
    requires heapBase > 0 && Possible(event) && (event.Request? ==> event.align <= PAGE_SIZE)
    requires SomeReaches(run.blocks, page) <==> page * PAGE_SIZE < Next(heapBase, run.state)
    ensures var (after, block) := Step(heapBase, run.state, event);
      SomeReaches(run.blocks + if block.Some? then [block.value] else [], page)
      <==> page * PAGE_SIZE < Next(heapBase, after)
  {
    hide IsPowerOfTwo, RoundUp, CeilingPages, Limit, Reaches, SomeReaches;
    assert run.blocks + [] == run.blocks;
    if event.Request? {
      PowerIsPositive(event.align);
      RoundUpIsAligned(Next(heapBase, run.state), event.align);
      var block := Allocate(heapBase, run.state, event.size, event.align, event.granted).1;
      if block.Some? {
        ReachesPush(run.blocks, block.value, page);
        if Next(heapBase, run.state) <= page * PAGE_SIZE {
          RequestReachesIff(heapBase, run.state, event.size, event.align, event.granted, page);
        }
      }
    }
  }

  /**
   * From any state below a page on, whatever follows: some block reaches into the page exactly when the next
   * address has passed the page's first.
   */
  lemma {:induction false} PageIsReachedIff(
    heapBase: nat, initialPages: nat, earlier: seq<Event>, later: seq<Event>, page: nat
  )
    requires 0 < heapBase < ADDRESSES && initialPages <= MOST_PAGES
    requires PossibleEvents(earlier) && PossibleEvents(later) && AlignedWithinPages(later)
    requires Next(heapBase, RunOf(heapBase, initialPages, earlier).state) <= page * PAGE_SIZE
    ensures PossibleEvents(earlier + later)
    ensures var run := RunOf(heapBase, initialPages, earlier + later);
      SomeReaches(run.blocks, page) <==> page * PAGE_SIZE < Next(heapBase, run.state)
  {
    hide Step, SomeReaches, Next, Sound;
    if later == [] {
      assert earlier + later == earlier;
      NothingReached(heapBase, initialPages, earlier, page);
    } else {
      var all, last := earlier + later, |later| - 1;
      PageIsReachedIff(heapBase, initialPages, earlier, later[..last], page);
      assert all[..|all| - 1] == earlier + later[..last] && all[|all| - 1] == later[last];
      StepReaches(heapBase, RunOf(heapBase, initialPages, all[..|all| - 1]), later[last], page);
    }
  }

  lemma NothingReached(heapBase: nat, initialPages: nat, events: seq<Event>, page: nat)
    requires 0 < heapBase < ADDRESSES && initialPages <= MOST_PAGES && PossibleEvents(events)
    requires Next(heapBase, RunOf(heapBase, initialPages, events).state) <= page * PAGE_SIZE
    ensures !SomeReaches(RunOf(heapBase, initialPages, events).blocks, page)
  {
    hide Reaches;
    EveryRunIsSound(heapBase, initialPages, events);
    if SomeReaches(RunOf(heapBase, initialPages, events).blocks, page) {
      UnreachedBeyondNext(heapBase, RunOf(heapBase, initialPages, events), page);
    }
  }

  /** Whether a page belongs to whoever caused an event: it came into being there. */
  predicate ObtainedBy(heapBase: nat, initialPages: nat, earlier: seq<Event>, event: Event, page: nat)
    requires PossibleEvents(earlier) && Possible(event)
  {
    var before := RunOf(heapBase, initialPages, earlier).state;
    event.Elsewhere? && before.pages <= page < Step(heapBase, before, event).0.pages
  }

  /**
   * A page someone else obtained after the first block is handed out again, in part, exactly when the next
   * address has passed its first. With alignments above a page a block may skip it, so only one direction is left.
   */
  lemma ForeignPageIff(
    heapBase: nat, initialPages: nat, earlier: seq<Event>, event: Event, later: seq<Event>, page: nat
  )
    requires 0 < heapBase < ADDRESSES && initialPages <= MOST_PAGES
    requires PossibleEvents(earlier) && Possible(event) && PossibleEvents(later)
    requires RunOf(heapBase, initialPages, earlier).state.nextAddr != 0
    requires ObtainedBy(heapBase, initialPages, earlier, event, page)
    ensures PossibleEvents(earlier + [event] + later)
    ensures var run := RunOf(heapBase, initialPages, earlier + [event] + later);
      && (SomeReaches(run.blocks, page) ==> page * PAGE_SIZE < run.state.nextAddr)
      && (AlignedWithinPages(later) ==> (SomeReaches(run.blocks, page) <==> page * PAGE_SIZE < run.state.nextAddr))
  {
    hide IsPowerOfTwo, SomeReaches, Sound, LiesBelow, Allocate;
    var grown := earlier + [event];
    assert grown[..|grown| - 1] == earlier && grown[|grown| - 1] == event;
    NextWithinPages(heapBase, initialPages, earlier);
    EveryRunIsSound(heapBase, initialPages, grown + later);
    if SomeReaches(RunOf(heapBase, initialPages, grown + later).blocks, page) {
      UnreachedBeyondNext(heapBase, RunOf(heapBase, initialPages, grown + later), page);
    }
    if AlignedWithinPages(later) {
      PageIsReachedIff(heapBase, initialPages, grown, later, page);
      NextStaysSet(heapBase, initialPages, grown, later);
    }
  }

  lemma NextWithinPages(heapBase: nat, initialPages: nat, events: seq<Event>)
    requires 0 < heapBase < ADDRESSES && initialPages <= MOST_PAGES && PossibleEvents(events)
    ensures var s := RunOf(heapBase, initialPages, events).state;
      s.nextAddr != 0 ==> s.nextAddr <= s.pages * PAGE_SIZE
  {
    hide LiesBelow;
    EveryRunIsSound(heapBase, initialPages, events);
  }

  lemma {:induction false} NextStaysSet(heapBase: nat, initialPages: nat, earlier: seq<Event>, later: seq<Event>)
    requires heapBase > 0 && PossibleEvents(earlier) && PossibleEvents(later)
    requires RunOf(heapBase, initialPages, earlier).state.nextAddr != 0
    ensures RunOf(heapBase, initialPages, earlier + later).state.nextAddr != 0
  {
    if later == [] {
      assert earlier + later == earlier;
    } else {
      hide Step;
      var all, last := earlier + later, |later| - 1;
      NextStaysSet(heapBase, initialPages, earlier, later[..last]);
      assert all[..|all| - 1] == earlier + later[..last] && all[|all| - 1] == later[last];
      StepKeepsNextSet(heapBase, RunOf(heapBase, initialPages, all[..|all| - 1]).state, later[last]);
    }
  }

  lemma StepKeepsNextSet(heapBase: nat, s: State, event: Event)
    requires Possible(event) && s.nextAddr != 0
    ensures Step(heapBase, s, event).0.nextAddr != 0
  {
    hide RoundUp, CeilingPages, Limit, IsPowerOfTwo;
    if event.Request? {
      PowerIsPositive(event.align);
      RoundUpIsAligned(s.nextAddr, event.align);
    }
  }

  /** One page of memory and a first block. */
  const FIRST_BLOCK: seq<Event> := [Request(16, 1, true)]

  lemma FirstBlock()
    ensures PossibleEvents(FIRST_BLOCK)
    ensures RunOf(1024, 1, FIRST_BLOCK) == Run(State(1040, 1, 1), [Block(1024, 16, 1)])
  {
    assert FIRST_BLOCK[..0] == [];
  }

  lemma ForeignPage()
    ensures PossibleEvents(FIRST_BLOCK) && ObtainedBy(1024, 1, FIRST_BLOCK, Elsewhere(1), 1)
    ensures RunOf(1024, 1, FIRST_BLOCK + [Elsewhere(1)]) == Run(State(1040, 1, 2), [Block(1024, 16, 1)])
  {
    FirstBlock();
    var grown := FIRST_BLOCK + [Elsewhere(1)];
    assert grown[..|grown| - 1] == FIRST_BLOCK && [Block(1024, 16, 1)] + [] == [Block(1024, 16, 1)];
  }

  lemma LastRequest(earlier: seq<Event>, size: nat, align: nat)
    requires PossibleEvents(earlier) && Possible(Request(size, align, true))
    ensures PossibleEvents(earlier + [Request(size, align, true)])
    ensures var before, (after, block) := RunOf(1024, 1, earlier), Step(1024, RunOf(1024, 1, earlier).state, Request(size, align, true));
      RunOf(1024, 1, earlier + [Request(size, align, true)])
      == Run(after, before.blocks + if block.Some? then [block.value] else [])
  {
    hide Step;
    var all := earlier + [Request(size, align, true)];
    assert all[..|all| - 1] == earlier;
  }

  /** A page someone else obtained, and a request that is given part of it. */
  lemma ForeignPageIsHandedOut()
    ensures PossibleEvents(FIRST_BLOCK) && ObtainedBy(1024, 1, FIRST_BLOCK, Elsewhere(1), 1)
    ensures PossibleEvents(FIRST_BLOCK + [Elsewhere(1)] + [Request(65536, 1, true)])
    ensures SomeReaches(RunOf(1024, 1, FIRST_BLOCK + [Elsewhere(1)] + [Request(65536, 1, true)]).blocks, 1)
  {
    hide RunOf, SomeReaches;
    FirstBlock();
    ForeignPage();
    LastRequest(FIRST_BLOCK + [Elsewhere(1)], 65536, 1);
    ForeignPageIff(1024, 1, FIRST_BLOCK, Elsewhere(1), [Request(65536, 1, true)], 1);
  }

  /** With an alignment of two pages the page may be skipped instead. */
  lemma LargeAlignmentSkipsThePage()
    ensures PossibleEvents(FIRST_BLOCK) && PossibleEvents(FIRST_BLOCK + [Elsewhere(1)] + [Request(16, 131072, true)])
    ensures var run := RunOf(1024, 1, FIRST_BLOCK + [Elsewhere(1)] + [Request(16, 131072, true)]);
      run.state.nextAddr > PAGE_SIZE && !SomeReaches(run.blocks, 1)
  {
    hide Allocate, RunOf, IsPowerOfTwo;
    FirstBlock();
    ForeignPage();
    TwoPagesIsPowerOfTwo();
    LastRequest(FIRST_BLOCK + [Elsewhere(1)], 16, 131072);
    SkippingRequest();
  }

  lemma TwoPagesIsPowerOfTwo()
    ensures IsPowerOfTwo(131072)
  {
    assert IsPowerOfTwo(2);
    hide IsPowerOfTwo;
    PageSizeIsPowerOfTwo();
    ProductIsPowerOfTwo(2, 65536);
  }

  lemma SkippingRequest()
    ensures Allocate(1024, State(1040, 1, 2), 16, 131072, true) == (State(131088, 3, 4), Some(Block(131072, 16, 131072)))
  {
  }

  // ---- the allocator ---------------------------------------------------------------------------------

  /** The instance's linear memory, by its size. */
  class Memory {
    var pages: nat

    constructor (pages: nat)
      requires pages <= MOST_PAGES
      ensures this.pages == pages
    {
      this.pages := pages;
    }

    /** `memory.size` */
    method Size() returns (size: usize)
      requires pages <= MOST_PAGES
      ensures size as int == pages
    {
      size := pages as usize;
    }

    /** `memory.grow`: the size before, or all ones. */
    method Grow(more: usize, granted: bool) returns (before: usize)
      requires pages <= MOST_PAGES
      modifies this
      ensures Grown(old(pages), more as int, granted).None? ==> before == USIZE_MAX && pages == old(pages)
      ensures Grown(old(pages), more as int, granted).Some? ==>
                before as int == old(pages) && Some(pages) == Grown(old(pages), more as int, granted)
    {
      if granted && pages + more as int <= MOST_PAGES {
        before := pages as usize;
        pages := pages + more as int;
      } else {
        before := USIZE_MAX;
      }
    }
  }

  method CheckedAdd(a: usize, b: usize) returns (sum: Option<usize>)
    ensures sum == if a as int + b as int < ADDRESSES then Some((a as int + b as int) as usize) else None
  {
    sum := if a as int + b as int < ADDRESSES then Some((a as int + b as int) as usize) else None;
  }

  class SimpleAllocator {
    const memory: Memory
    const heapBase: usize
    var nextAddr: usize
    var currentPages: usize

    /** The allocator's words as one value. */
    function Abstract(): State
      reads this, memory
    {
      State(nextAddr as int, currentPages as int, memory.pages)
    }

    ghost predicate Valid()
      reads this, memory
    {
      && heapBase > 0
      && currentPages as int <= memory.pages <= MOST_PAGES
    }

    constructor (memory: Memory, heapBase: usize)
      requires memory.pages <= MOST_PAGES && heapBase > 0
      ensures Valid() && Abstract() == State(0, 0, memory.pages)
      ensures this.memory == memory && this.heapBase == heapBase
    {
      this.memory := memory;
      this.heapBase := heapBase;
      nextAddr := 0;
      currentPages := 0;
    }

    /** A block of `size` bytes at a multiple of `align`, or 0. `granted` is what the host decides when asked to grow. */
    method Alloc(size: usize, align: usize, granted: bool) returns (address: usize)
      requires Valid() && IsPowerOfTwo(align as int)
      modifies this, memory
      ensures Valid()
      ensures Abstract() == Allocate(heapBase as int, old(Abstract()), size as int, align as int, granted).0
      ensures match Allocate(heapBase as int, old(Abstract()), size as int, align as int, granted).1
              case None => address == 0
              case Some(block) => address as int == block.start && address != 0
    {
      hide IsPowerOfTwo, And, RoundUp, CeilingPages, Limit, IsAligned;
      PowerIsPositive(align as int);
      var next := nextAddr;
      if next == 0 {
        next := heapBase;
        currentPages := memory.Size();
      }
      var raised := CheckedAdd(next, align - 1);
      if raised.None? {
        return 0;
      }
      RoundUpFits(next as int, align as int);
      RoundUpIsAligned(next as int, align as int);
      var block := And(raised.value as int, (USIZE_MAX - (align - 1)) as int) as usize;
      var end := CheckedAdd(block, size);
      if end.None? {
        return 0;
      }
      LimitFits(currentPages as int);
      var limit := Limit(currentPages as int) as usize;
      if end.value > limit {
        var neededBytes := end.value - limit;
        GrowthSuffices(currentPages as int, end.value as int);
        var neededPages := CeilingPages(neededBytes as int) as usize;
        var before := memory.Grow(neededPages, granted);
        if before == USIZE_MAX {
          return 0;
        }
        currentPages := currentPages + neededPages;
      }
      nextAddr := end.value;
      address := block;
    }
  }
}
