/**
 * The book slot of a subscription entry: driving the maintained book from inbound frames, the
 * resync window after a checksum gap, and the budget that bounds the recovery loop.
 */
module GapRecovery {
  import opened Util
  import opened PriceLadder
  import opened Checksum
  import opened BookSide
  import opened BookBuilder

  const MAX_CONSECUTIVE_BOOK_GAPS: nat := 5

  /** A decoded book frame. */
  datatype BookFrame = BookFrame(symbol: string, bids: seq<PriceLevel>, asks: seq<PriceLevel>,
                                 checksum: bv32, timestamp: string)

  /** What a frame, or a fired reseed timer, asks of the reactor. */
  datatype Outcome =
    | PassThrough
    | Maintained(update: OrderBookUpdate)
    | Gap(expected: bv32, computed: bv32)
    | AwaitingSnapshot
    | GapBudgetExhausted
    | StaleNoOp
    | Retry
    | Exhausted
    | Silent

  /** `frame` is `None` when the payload does not parse. */
  datatype Event =
    | Frame(isSnapshot: bool, frame: Option<BookFrame>)
    | ResyncBegins
    | ReseedTimeout(tombstone: bool)

  /** The maintained book, until maintenance is dropped. */
  type Slot = Option<Book>

  ghost function AfterFrame(book: Book, isSnapshot: bool, f: BookFrame): (Book, ApplyResult) {
    if isSnapshot then AfterSnapshot(book, f.bids, f.asks, f.checksum)
    else AfterDelta(book, f.bids, f.asks, f.checksum)
  }

  /** A mismatch is a gap until the budget is spent; then maintenance is dropped. */
  ghost function Judge(after: Book, r: ApplyResult, f: BookFrame): (Slot, Outcome) {
    match r
    case Applied => (Some(after), Maintained(UpdateOf(after, f.checksum, f.timestamp)))
    case ChecksumMismatch(expected, computed) =>
      if after.gaps >= MAX_CONSECUTIVE_BOOK_GAPS then (None, GapBudgetExhausted)
      else (Some(after), Gap(expected, computed))
  }

  ghost function OnFrame(slot: Slot, isSnapshot: bool, frame: Option<BookFrame>): (Slot, Outcome) {
    match slot
    case None => (slot, PassThrough)
    case Some(book) =>
      if book.resyncing && !isSnapshot then (slot, AwaitingSnapshot)
      else if frame.None? || frame.value.symbol != book.symbol then (slot, PassThrough)
      else
        var (after, r) := AfterFrame(book, isSnapshot, frame.value);
        Judge(after, r, frame.value)
  }

  function OnReseedTimeout(slot: Slot, tombstone: bool): (Slot, Outcome) {
    if slot.None? || tombstone || !slot.value.resyncing then (slot, StaleNoOp)
    else if slot.value.gaps + 1 >= MAX_CONSECUTIVE_BOOK_GAPS then (None, Exhausted)
    else (Some(slot.value.(gaps := slot.value.gaps + 1)), Retry)
  }

  ghost function Step(slot: Slot, e: Event): (Slot, Outcome) {
    match e
    case Frame(isSnapshot, frame) => OnFrame(slot, isSnapshot, frame)
    case ResyncBegins => (if slot.None? then None else Some(ResyncBegun(slot.value)), Silent)
    case ReseedTimeout(tombstone) => OnReseedTimeout(slot, tombstone)
  }

  // ---------------------------------------------------------------- the entry

  class BookEntry {
    var builder: OrderBookBuilder?
    var tombstone: bool

    ghost function View(): Slot
      reads this, builder
    {
      if builder == null then None else Some(builder.View())
    }

    constructor (symbol: string, wireDepth: nat, depth: nat)
      ensures fresh(builder) && View() == Some(EmptyBook(symbol, wireDepth, depth))
    {
      builder := new OrderBookBuilder(symbol, wireDepth, depth);
      tombstone := false;
    }

    method DriveUpdate(isSnapshot: bool, frame: Option<BookFrame>) returns (outcome: Outcome)
      modifies this`builder, builder
      ensures (View(), outcome) == OnFrame(old(View()), isSnapshot, frame)
      ensures builder == old(builder) || builder == null
    {
      if builder == null {
        return PassThrough;
      }
      if builder.resyncing && !isSnapshot {
        return AwaitingSnapshot;
      }
      if frame.None? {
        return PassThrough;
      }
      var parsed := frame.value;
      if parsed.symbol != builder.symbol {
        return PassThrough;
      }
      var result;
      if isSnapshot {
        result := builder.ApplySnapshot(parsed.bids, parsed.asks, parsed.checksum);
      } else {
        result := builder.ApplyDelta(parsed.bids, parsed.asks, parsed.checksum);
      }
      match result {
        case Applied =>
          var update := builder.BuildUpdate(parsed.checksum, parsed.timestamp);
          outcome := Maintained(update);
        case ChecksumMismatch(expected, computed) =>
          if builder.consecutiveGaps >= MAX_CONSECUTIVE_BOOK_GAPS {
            outcome := GapBudgetExhausted;
          } else {
            outcome := Gap(expected, computed);
          }
      }
      if outcome.GapBudgetExhausted? {
        builder := null;
      }
    }

    method BeginBookResync()
      modifies builder
      ensures (View(), Silent) == Step(old(View()), ResyncBegins)
    {
      if builder != null {
        builder.BeginResync();
      }
    }

    method NoteReseedTimeout() returns (outcome: Outcome)
      modifies this`builder, builder
      ensures (View(), outcome) == OnReseedTimeout(old(View()), tombstone)
    {
      if tombstone || builder == null || !builder.resyncing {
        return StaleNoOp;
      }
      var gaps := builder.NoteReseedFailure();
      if gaps >= MAX_CONSECUTIVE_BOOK_GAPS {
        builder := null;
        outcome := Exhausted;
      } else {
        outcome := Retry;
      }
    }
  }

  // ---------------------------------------------------------------- runs

  ghost function SlotAfter(slot: Slot, events: seq<Event>): Slot {
    if events == [] then slot
    else Step(SlotAfter(slot, events[..|events| - 1]), events[|events| - 1]).0
  }

  ghost function Outcomes(slot: Slot, events: seq<Event>): (outcomes: seq<Outcome>)
    ensures |outcomes| == |events|
  {
    if events == [] then []
    else
      var init := events[..|events| - 1];
      Outcomes(slot, init) + [Step(SlotAfter(slot, init), events[|events| - 1]).1]
  }

  predicate IsFailure(o: Outcome) {
    o.Gap? || o.Retry?
  }

  predicate IsTerminal(o: Outcome) {
    o.GapBudgetExhausted? || o.Exhausted?
  }

  /** The `Gap` and `Retry` outcomes since the last validated apply. */
  function FailureStreak(outcomes: seq<Outcome>): nat {
    if outcomes == [] then 0
    else
      var init, last := outcomes[..|outcomes| - 1], outcomes[|outcomes| - 1];
      if last.Maintained? then 0 else FailureStreak(init) + if IsFailure(last) then 1 else 0
  }

  /** The answers once maintenance is dropped: every frame passes through, every timer is stale. */
  predicate Degraded(e: Event, o: Outcome) {
    match e
    case Frame(_, _) => o.PassThrough?
    case ResyncBegins => o.Silent?
    case ReseedTimeout(_) => o.StaleNoOp?
  }

  /** The one terminal outcome: the fifth failure in a row, with only degraded answers after it. */
  ghost predicate TerminatesAt(events: seq<Event>, outcomes: seq<Outcome>, i: nat)
    requires i < |outcomes| == |events|
  {
    && IsTerminal(outcomes[i])
    && FailureStreak(outcomes[..i]) == MAX_CONSECUTIVE_BOOK_GAPS - 1
    && (forall j :: 0 <= j < i ==> !IsTerminal(outcomes[j]))
    && (forall j :: i < j < |outcomes| ==> Degraded(events[j], outcomes[j]))
  }

  /** The builder counts the streak, which stays under the cap; once it is gone, it went at the cap. */
  ghost predicate WithinBudget(slot: Slot, events: seq<Event>, outcomes: seq<Outcome>)
    requires |outcomes| == |events|
  {
    && FailureStreak(outcomes) < MAX_CONSECUTIVE_BOOK_GAPS
    && (slot.Some? ==> slot.value.gaps == FailureStreak(outcomes)
                       && forall i :: 0 <= i < |outcomes| ==> !IsTerminal(outcomes[i]))
    && (slot.None? ==> exists i :: 0 <= i < |outcomes| && TerminatesAt(events, outcomes, i))
  }

  /** How one event moves the count of gaps. */
  ghost predicate CountsGap(before: Slot, after: Slot, e: Event, o: Outcome) {
    if before.None? then after.None? && Degraded(e, o)
    else if IsTerminal(o) then after.None? && before.value.gaps + 1 == MAX_CONSECUTIVE_BOOK_GAPS
    else
      && after.Some?
      && (o.Maintained? ==> after.value.gaps == 0)
      && (IsFailure(o) ==> after.value.gaps == before.value.gaps + 1 < MAX_CONSECUTIVE_BOOK_GAPS)
      && (!o.Maintained? && !IsFailure(o) ==> after.value.gaps == before.value.gaps)
  }

  lemma AfterFrameGaps(book: Book, isSnapshot: bool, f: BookFrame)
    ensures var (after, r) := AfterFrame(book, isSnapshot, f);
            after.gaps == if r.Applied? then 0 else book.gaps + 1
  {
  }

  lemma JudgeCountsGap(before: Book, after: Book, r: ApplyResult, e: Event, f: BookFrame)
    requires before.gaps < MAX_CONSECUTIVE_BOOK_GAPS
    requires after.gaps == if r.Applied? then 0 else before.gaps + 1
    ensures CountsGap(Some(before), Judge(after, r, f).0, e, Judge(after, r, f).1)
  {
  }

  lemma FrameCountsGap(slot: Slot, isSnapshot: bool, frame: Option<BookFrame>)
    requires slot.Some? ==> slot.value.gaps < MAX_CONSECUTIVE_BOOK_GAPS
    ensures CountsGap(slot, OnFrame(slot, isSnapshot, frame).0, Frame(isSnapshot, frame), OnFrame(slot, isSnapshot, frame).1)
  {
    if slot.Some? && frame.Some? {
      var (after, r) := AfterFrame(slot.value, isSnapshot, frame.value);
      AfterFrameGaps(slot.value, isSnapshot, frame.value);
      JudgeCountsGap(slot.value, after, r, Frame(isSnapshot, frame), frame.value);
    }
  }

  lemma StepCountsGap(slot: Slot, e: Event)
    requires slot.Some? ==> slot.value.gaps < MAX_CONSECUTIVE_BOOK_GAPS
    ensures CountsGap(slot, Step(slot, e).0, e, Step(slot, e).1)
  {
    if e.Frame? { FrameCountsGap(slot, e.isSnapshot, e.frame); }
  }

  lemma BudgetStep(before: Slot, after: Slot, events: seq<Event>, earlier: seq<Outcome>, e: Event, o: Outcome)
    requires |events| == |earlier|
    requires WithinBudget(before, events, earlier) && CountsGap(before, after, e, o)
    ensures WithinBudget(after, events + [e], earlier + [o])
  {
    var outcomes := earlier + [o];
    assert outcomes[..|outcomes| - 1] == earlier;
    if before.None? {
      var i :| 0 <= i < |earlier| && TerminatesAt(events, earlier, i);
      assert outcomes[..i] == earlier[..i];
      assert TerminatesAt(events + [e], outcomes, i);
    } else if after.None? {
      assert TerminatesAt(events + [e], outcomes, |earlier|);
    }
  }

  /**
   * The gap budget, over every run of a fresh builder: the streak of failures is what the builder
   * counts and never passes four; the fifth failure is terminal and happens at most once; it drops
   * the builder, and from then on every frame passes through.
   */
  lemma {:induction false} GapBudget(book: Book, events: seq<Event>)
    requires book.gaps == 0
    ensures WithinBudget(SlotAfter(Some(book), events), events, Outcomes(Some(book), events))
    decreases |events|
  {
    if events != [] {
      var init, e := events[..|events| - 1], events[|events| - 1];
      GapBudget(book, init);
      var slot := SlotAfter(Some(book), init);
      StepCountsGap(slot, e);
      BudgetStep(slot, Step(slot, e).0, init, Outcomes(Some(book), init), e, Step(slot, e).1);
      assert events == init + [e];
    }
  }

  /** The frame that ends a resync window: a snapshot that decodes to this book's symbol. */
  predicate Reseeds(e: Event, symbol: string) {
    e.Frame? && e.isSnapshot && e.frame.Some? && e.frame.value.symbol == symbol
  }

  /**
   * From the start of a resync to the next applied snapshot no event puts a level in the book or
   * yields a maintained update, and a delta is answered only by waiting (or, once maintenance was
   * dropped, passed through).
   */
  lemma {:induction false} ResyncWindow(book: Book, events: seq<Event>)
    requires forall i :: 0 <= i < |events| ==> !Reseeds(events[i], book.symbol)
    ensures var slot := SlotAfter(Some(ResyncBegun(book)), events);
            slot.Some? ==> slot.value.symbol == book.symbol && slot.value.resyncing
                           && slot.value.bids == map[] && slot.value.asks == map[] && slot.value.lastChecksum == None
    ensures forall i :: 0 <= i < |events| ==>
              var o := Outcomes(Some(ResyncBegun(book)), events)[i];
              && !o.Maintained? && !o.Gap?
              && (events[i].Frame? && !events[i].isSnapshot ==> o.AwaitingSnapshot? || o.PassThrough?)
    decreases |events|
  {
    if events != [] {
      ResyncWindow(book, events[..|events| - 1]);
    }
  }

  /** The first snapshot for this symbol closes the window, whether or not its checksum matches. */
  lemma SnapshotEndsTheWindow(book: Book, e: Event)
    requires Reseeds(e, book.symbol)
    ensures var (slot, o) := Step(Some(book), e);
            && !o.AwaitingSnapshot? && !o.PassThrough?
            && (slot.None? <==> o.GapBudgetExhausted?)
            && (slot.Some? ==> !slot.value.resyncing
                               && slot.value.bids == Top(Seed(Bid, e.frame.value.bids), book.depth)
                               && slot.value.asks == Top(Seed(Ask, e.frame.value.asks), book.depth)
                               && (o.Maintained? <==> SidesChecksum(slot.value.bids, slot.value.asks) == e.frame.value.checksum))
  {
    var f := e.frame.value;
    var after := AfterFrame(book, true, f).0;
    assert !after.resyncing;
  }
}
