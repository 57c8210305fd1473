/**
 * Driving a book from the exchange's frames: a snapshot and then deltas, each applied as what it is, keep
 * the book in step with the exchange and every frame is delivered with the exchange's best levels.
 */
module BookFeed {
  import opened Util
  import opened PriceLadder
  import opened Checksum
  import opened BookSide
  import opened BookBuilder
  import opened GapRecovery
  import opened BookPrices

  // ---------------------------------------------------------------- one frame

  /** The sides a frame leads to: a snapshot replaces them, a delta changes them. */
  ghost function SideAfter(book: Book, side: SideKind, isSnapshot: bool, levels: seq<PriceLevel>): Ladder {
    Top(if isSnapshot then Seed(side, levels) else Apply(LadderOf(side, book), side, levels), book.depth)
  }

  lemma AppliedFrame(book: Book, isSnapshot: bool, f: BookFrame)
    ensures var (after, r) := AfterFrame(book, isSnapshot, f);
            var bids, asks := SideAfter(book, Bid, isSnapshot, f.bids), SideAfter(book, Ask, isSnapshot, f.asks);
            var computed := SidesChecksum(bids, asks);
            && after.bids == bids && after.asks == asks && SameIdentity(after, book)
            && after.resyncing == (book.resyncing && !isSnapshot)
            && r == (if computed == f.checksum then Applied else ChecksumMismatch(f.checksum, computed))
            && after.gaps == (if computed == f.checksum then 0 else book.gaps + 1)
            && after.lastChecksum == (if computed == f.checksum then Some(computed) else book.lastChecksum)
  {
  }

  /**
   * A frame that reaches the book is applied as the kind of frame it is, whatever its checksum; the checksum
   * decides the answer, and a gap names the checksum expected and the one computed.
   */
  lemma FrameIsApplied(book: Book, isSnapshot: bool, f: BookFrame)
    requires f.symbol == book.symbol && (book.resyncing ==> isSnapshot)
    ensures var (slot, o) := Step(Some(book), Frame(isSnapshot, Some(f)));
            var bids, asks := SideAfter(book, Bid, isSnapshot, f.bids), SideAfter(book, Ask, isSnapshot, f.asks);
            var computed := SidesChecksum(bids, asks);
            && (slot.Some? ==> slot.value.bids == bids && slot.value.asks == asks && !slot.value.resyncing)
            && (computed == f.checksum <==> o.Maintained?)
            && (o.Maintained? ==> slot.Some? && slot.value.gaps == 0 && slot.value.lastChecksum == Some(computed))
            && (computed != f.checksum && book.gaps + 1 < 5 ==>
                  o == Gap(f.checksum, computed) && slot.Some? && slot.value.gaps == book.gaps + 1
                  && slot.value.lastChecksum == book.lastChecksum)
            && (computed != f.checksum && book.gaps + 1 >= 5 ==> o == GapBudgetExhausted && slot == None)
  {
    var (after, r) := AfterFrame(book, isSnapshot, f);
    AppliedFrame(book, isSnapshot, f);
    assert Step(Some(book), Frame(isSnapshot, Some(f))) == Judge(after, r, f);
  }

  // ---------------------------------------------------------------- a feed

  /** A snapshot of the exchange's sides, as deep as the book. */
  ghost predicate Snapshot(e: Event, symbol: string, bids: Ladder, asks: Ladder, depth: nat) {
    && e.Frame? && e.isSnapshot && e.frame.Some? && e.frame.value.symbol == symbol
    && Top(Seed(Bid, e.frame.value.bids), depth) == Top(bids, depth)
    && Top(Seed(Ask, e.frame.value.asks), depth) == Top(asks, depth)
    && e.frame.value.checksum == SidesChecksum(bids, asks)
  }

  /** A delta from one state of the exchange's sides to the next. */
  ghost predicate Change(e: Event, symbol: string, bids: Ladder, asks: Ladder, nextBids: Ladder, nextAsks: Ladder, depth: nat) {
    && e.Frame? && !e.isSnapshot && e.frame.Some? && e.frame.value.symbol == symbol
    && Follows(Bid, e.frame.value.bids, bids, nextBids, depth)
    && Follows(Ask, e.frame.value.asks, asks, nextAsks, depth)
    && e.frame.value.checksum == SidesChecksum(nextBids, nextAsks)
  }

  /** Event by event the exchange's sides, first a snapshot and then deltas. */
  ghost predicate Feed(events: seq<Event>, symbol: string, bids: seq<Ladder>, asks: seq<Ladder>, depth: nat) {
    && |events| == |bids| == |asks| >= 1
    && Snapshot(events[0], symbol, bids[0], asks[0], depth)
    && (forall i :: 1 <= i < |events| ==> Change(events[i], symbol, bids[i - 1], asks[i - 1], bids[i], asks[i], depth))
  }

  /** The book in step with the exchange's sides. */
  ghost function InStep(symbol: string, depth: nat, callerDepth: nat, bids: Ladder, asks: Ladder): Book {
    Book(symbol, depth, callerDepth, Top(bids, depth), Top(asks, depth), Some(SidesChecksum(bids, asks)), false, 0)
  }

  /** The exchange's own best levels, delivered with a frame. */
  ghost function Delivered(e: Event, symbol: string, callerDepth: nat, bids: Ladder, asks: Ladder): Outcome
    requires e.Frame? && e.frame.Some?
  {
    Maintained(OrderBookUpdate(symbol, Quotes(TopList(bids, callerDepth)), Quotes(TopList(asks, callerDepth)),
                               e.frame.value.checksum, e.frame.value.timestamp))
  }

  /** A window as deep as the checksum and the caller's view has both of the exchange's sides. */
  lemma WindowShows(symbol: string, depth: nat, callerDepth: nat, bids: Ladder, asks: Ladder)
    requires depth >= 10 && callerDepth <= depth
    ensures SidesChecksum(Top(bids, depth), Top(asks, depth)) == SidesChecksum(bids, asks)
    ensures TopList(Top(bids, depth), callerDepth) == TopList(bids, callerDepth)
    ensures TopList(Top(asks, depth), callerDepth) == TopList(asks, callerDepth)
  {
    WindowLists(bids, CHECKSUM_DEPTH, depth);
    WindowLists(asks, CHECKSUM_DEPTH, depth);
    WindowLists(bids, callerDepth, depth);
    WindowLists(asks, callerDepth, depth);
  }

  lemma ReachedBook(book: Book, e: Event, bids: Ladder, asks: Ladder)
    requires book.depth >= 10 && book.callerDepth <= book.depth
    requires e.Frame? && e.frame.Some? && e.frame.value.symbol == book.symbol && (book.resyncing ==> e.isSnapshot)
    requires SideAfter(book, Bid, e.isSnapshot, e.frame.value.bids) == Top(bids, book.depth)
    requires SideAfter(book, Ask, e.isSnapshot, e.frame.value.asks) == Top(asks, book.depth)
    requires e.frame.value.checksum == SidesChecksum(bids, asks)
    ensures Step(Some(book), e) == (Some(InStep(book.symbol, book.depth, book.callerDepth, bids, asks)),
                                    Delivered(e, book.symbol, book.callerDepth, bids, asks))
  {
    WindowShows(book.symbol, book.depth, book.callerDepth, bids, asks);
    var f := e.frame.value;
    var (after, r) := AfterFrame(book, e.isSnapshot, f);
    assert after == InStep(book.symbol, book.depth, book.callerDepth, bids, asks) && r == Applied;
  }

  lemma ChangeStep(e: Event, symbol: string, depth: nat, callerDepth: nat, bids: Ladder, asks: Ladder, nextBids: Ladder, nextAsks: Ladder)
    requires depth >= 10 && callerDepth <= depth && Change(e, symbol, bids, asks, nextBids, nextAsks, depth)
    ensures Step(Some(InStep(symbol, depth, callerDepth, bids, asks)), e)
         == (Some(InStep(symbol, depth, callerDepth, nextBids, nextAsks)), Delivered(e, symbol, callerDepth, nextBids, nextAsks))
  {
    WindowExact(bids, nextBids, Bid, e.frame.value.bids, depth);
    WindowExact(asks, nextAsks, Ask, e.frame.value.asks, depth);
    ReachedBook(InStep(symbol, depth, callerDepth, bids, asks), e, nextBids, nextAsks);
  }

  ghost predicate Followed(book: Book, events: seq<Event>, bids: seq<Ladder>, asks: seq<Ladder>)
    requires |events| == |bids| == |asks| >= 1
  {
    && SlotAfter(Some(book), events)
       == Some(InStep(book.symbol, book.depth, book.callerDepth, bids[|events| - 1], asks[|events| - 1]))
    && AllDelivered(book, events, Outcomes(Some(book), events), bids, asks)
  }

  ghost predicate AllDelivered(book: Book, events: seq<Event>, outcomes: seq<Outcome>, bids: seq<Ladder>, asks: seq<Ladder>)
    requires |events| == |outcomes| == |bids| == |asks|
  {
    forall i :: 0 <= i < |events| ==>
      && events[i].Frame? && events[i].frame.Some?
      && outcomes[i] == Delivered(events[i], book.symbol, book.callerDepth, bids[i], asks[i])
  }

  lemma OneMoreDelivered(book: Book, events: seq<Event>, outcomes: seq<Outcome>, bids: seq<Ladder>, asks: seq<Ladder>,
                         e: Event, o: Outcome, nextBids: Ladder, nextAsks: Ladder)
    requires |events| == |outcomes| == |bids| == |asks| && AllDelivered(book, events, outcomes, bids, asks)
    requires e.Frame? && e.frame.Some? && o == Delivered(e, book.symbol, book.callerDepth, nextBids, nextAsks)
    ensures AllDelivered(book, events + [e], outcomes + [o], bids + [nextBids], asks + [nextAsks])
  {
  }

  lemma OneMoreEvent(slot: Slot, events: seq<Event>, e: Event)
    ensures SlotAfter(slot, events + [e]) == Step(SlotAfter(slot, events), e).0
    ensures Outcomes(slot, events + [e]) == Outcomes(slot, events) + [Step(SlotAfter(slot, events), e).1]
  {
    assert (events + [e])[..|events + [e]| - 1] == events;
  }

  lemma FirstFrameFollowed(book: Book, e: Event, bids: Ladder, asks: Ladder)
    requires book.depth >= 10 && book.callerDepth <= book.depth && Snapshot(e, book.symbol, bids, asks, book.depth)
    ensures Followed(book, [e], [bids], [asks])
  {
    ReachedBook(book, e, bids, asks);
    assert [] + [e] == [e];
    OneMoreEvent(Some(book), [], e);
  }

  lemma NextFrameFollowed(book: Book, events: seq<Event>, bids: seq<Ladder>, asks: seq<Ladder>, e: Event, nextBids: Ladder, nextAsks: Ladder)
    requires book.depth >= 10 && book.callerDepth <= book.depth && |events| == |bids| == |asks| >= 1
    requires Followed(book, events, bids, asks)
    requires Change(e, book.symbol, bids[|bids| - 1], asks[|asks| - 1], nextBids, nextAsks, book.depth)
    ensures Followed(book, events + [e], bids + [nextBids], asks + [nextAsks])
  {
    var n := |events| - 1;
    ChangeStep(e, book.symbol, book.depth, book.callerDepth, bids[n], asks[n], nextBids, nextAsks);
    OneMoreEvent(Some(book), events, e);
    OneMoreDelivered(book, events, Outcomes(Some(book), events), bids, asks, e,
                     Delivered(e, book.symbol, book.callerDepth, nextBids, nextAsks), nextBids, nextAsks);
  }

  lemma {:induction false} PrefixFollowed(book: Book, events: seq<Event>, bids: seq<Ladder>, asks: seq<Ladder>, n: nat)
    requires book.depth >= 10 && book.callerDepth <= book.depth
    requires Feed(events, book.symbol, bids, asks, book.depth) && 1 <= n <= |events|
    ensures Followed(book, events[..n], bids[..n], asks[..n])
    decreases n
  {
    var m := n - 1;
    assert events[..n] == events[..m] + [events[m]];
    assert bids[..n] == bids[..m] + [bids[m]] && asks[..n] == asks[..m] + [asks[m]];
    if m == 0 {
      FirstFrameFollowed(book, events[0], bids[0], asks[0]);
      assert events[..1] == [events[0]] && bids[..1] == [bids[0]] && asks[..1] == [asks[0]];
    } else {
      PrefixFollowed(book, events, bids, asks, m);
      NextFrameFollowed(book, events[..m], bids[..m], asks[..m], events[m], bids[m], asks[m]);
    }
  }

  /**
   * A feed, over every run of frames and from any state the book was in: the book is in step with the
   * exchange after every frame, and every frame is delivered with the exchange's best levels.
   */
  lemma FeedIsDelivered(book: Book, events: seq<Event>, bids: seq<Ladder>, asks: seq<Ladder>)
    requires book.depth >= 10 && book.callerDepth <= book.depth
    requires Feed(events, book.symbol, bids, asks, book.depth)
    ensures Followed(book, events, bids, asks)
  {
    var n := |events|;
    assert events[..n] == events && bids[..n] == bids && asks[..n] == asks;
    PrefixFollowed(book, events, bids, asks, n);
  }

  ghost predicate SameIdentity(a: Book, b: Book) {
    a.symbol == b.symbol && a.depth == b.depth && a.callerDepth == b.callerDepth
  }

  lemma StepKeepsIdentity(slot: Slot, e: Event)
    ensures Step(slot, e).0.Some? ==> slot.Some? && SameIdentity(Step(slot, e).0.value, slot.value)
  {
    if slot.Some? && e.Frame? && e.frame.Some? {
      var (after, r) := AfterFrame(slot.value, e.isSnapshot, e.frame.value);
      assert SameIdentity(after, slot.value) by { AppliedFrame(slot.value, e.isSnapshot, e.frame.value); }
      JudgeKeepsTheBook(after, r, e.frame.value);
      assert Step(slot, e).0 in {slot, Judge(after, r, e.frame.value).0};
    }
  }

  /** Frames and timers never change whose book it is or how deep. */
  lemma {:induction false} SameBook(slot: Slot, events: seq<Event>)
    ensures SlotAfter(slot, events).Some? ==> slot.Some? && SameIdentity(SlotAfter(slot, events).value, slot.value)
    decreases |events|
  {
    if events != [] {
      SameBook(slot, events[..|events| - 1]);
      StepKeepsIdentity(SlotAfter(slot, events[..|events| - 1]), events[|events| - 1]);
    }
  }

  lemma {:induction false} SlotAfterBoth(slot: Slot, a: seq<Event>, b: seq<Event>)
    ensures SlotAfter(slot, a + b) == SlotAfter(SlotAfter(slot, a), b)
    decreases |b|
  {
    if b == [] {
      assert a + b == a;
    } else {
      assert (a + b)[..|a + b| - 1] == a + b[..|b| - 1];
      SlotAfterBoth(slot, a, b[..|b| - 1]);
    }
  }

  // ---------------------------------------------------------------- in prices

  lemma AppliedStaysPriced(book: Book, isSnapshot: bool, f: BookFrame)
    requires Priced(book)
    ensures Priced(AfterFrame(book, isSnapshot, f).0)
  {
    BookStaysPriced(book, f.bids, f.asks, f.checksum);
  }

  lemma JudgeKeepsTheBook(after: Book, r: ApplyResult, f: BookFrame)
    ensures Judge(after, r, f).0.Some? ==> Judge(after, r, f).0.value == after
  {
  }

  lemma FrameStaysPriced(book: Book, isSnapshot: bool, frame: Option<BookFrame>)
    requires Priced(book)
    ensures var after := OnFrame(Some(book), isSnapshot, frame).0; after.Some? ==> Priced(after.value)
  {
    if frame.Some? && !(book.resyncing && !isSnapshot) && frame.value.symbol == book.symbol {
      var (after, r) := AfterFrame(book, isSnapshot, frame.value);
      assert Priced(after) by { AppliedStaysPriced(book, isSnapshot, frame.value); }
      JudgeKeepsTheBook(after, r, frame.value);
      assert OnFrame(Some(book), isSnapshot, frame) == Judge(after, r, frame.value);
    }
  }

  lemma StepStaysPriced(slot: Slot, e: Event)
    requires slot.Some? ==> Priced(slot.value)
    ensures Step(slot, e).0.Some? ==> Priced(Step(slot, e).0.value)
  {
    if slot.Some? {
      match e
      case Frame(isSnapshot, frame) => FrameStaysPriced(slot.value, isSnapshot, frame);
      case ResyncBegins => BookStaysPriced(slot.value, [], [], 0);
      case ReseedTimeout(_) =>
    }
  }

  lemma {:induction false} SlotStaysPriced(book: Book, events: seq<Event>)
    requires Priced(book)
    ensures SlotAfter(Some(book), events).Some? ==> Priced(SlotAfter(Some(book), events).value)
    decreases |events|
  {
    if events != [] {
      SlotStaysPriced(book, events[..|events| - 1]);
      StepStaysPriced(SlotAfter(Some(book), events[..|events| - 1]), events[|events| - 1]);
    }
  }

  lemma MaintainedIsTheUpdate(slot: Slot, e: Event)
    requires Step(slot, e).1.Maintained?
    ensures e.Frame? && e.frame.Some? && Step(slot, e).0.Some?
    ensures Step(slot, e).1.update == UpdateOf(Step(slot, e).0.value, e.frame.value.checksum, e.frame.value.timestamp)
  {
  }

  /**
   * Whatever is delivered, after any frames, resyncs and timers: the bids fall and the asks rise in price,
   * and they are the book's best.
   */
  lemma DeliveredInPrices(book: Book, events: seq<Event>, e: Event)
    requires Priced(book) && Step(SlotAfter(Some(book), events), e).1.Maintained?
    ensures var (slot, o) := Step(SlotAfter(Some(book), events), e);
            && slot.Some?
            && (forall i, j :: 0 <= i < j < |o.update.bids| ==> o.update.bids[i].price > o.update.bids[j].price)
            && (forall i, j :: 0 <= i < j < |o.update.asks| ==> o.update.asks[i].price < o.update.asks[j].price)
            && (exists bids, asks :: BestFirst(Bid, bids, slot.value.bids, book.callerDepth) && Shows(o.update.bids, bids)
                                     && BestFirst(Ask, asks, slot.value.asks, book.callerDepth) && Shows(o.update.asks, asks))
  {
    var before := SlotAfter(Some(book), events);
    SameBook(Some(book), events);
    StepKeepsIdentity(before, e);
    SlotStaysPriced(book, events);
    StepStaysPriced(before, e);
    MaintainedIsTheUpdate(before, e);
    UpdateInPrices(Step(before, e).0.value, e.frame.value.checksum, e.frame.value.timestamp);
  }

  // ---------------------------------------------------------------- a lost snapshot

  /** When a fired timer asks again, gives up, or is stale. */
  lemma TimerAnswers(slot: Slot, tombstone: bool)
    ensures var (after, o) := Step(slot, ReseedTimeout(tombstone));
            var waiting := slot.Some? && !tombstone && slot.value.resyncing;
            && (o.Retry? <==> waiting && slot.value.gaps + 1 < 5)
            && (o.Exhausted? <==> waiting && slot.value.gaps + 1 >= 5)
            && (o.StaleNoOp? <==> !waiting)
            && after == if o.Retry? then Some(slot.value.(gaps := slot.value.gaps + 1)) else if o.Exhausted? then None else slot
  {
  }

  function Timers(n: nat): seq<Event> {
    seq(n, _ => ReseedTimeout(false))
  }

  /** A snapshot that never comes: the timer retries until the budget is spent, gives up once, then is stale. */
  lemma {:induction false} LostSnapshot(book: Book, n: nat)
    requires book.gaps < 5
    ensures var slot := SlotAfter(Some(ResyncBegun(book)), Timers(n));
            if book.gaps + n < 5 then slot == Some(ResyncBegun(book).(gaps := book.gaps + n)) else slot == None
    ensures forall i :: 0 <= i < n ==>
              Outcomes(Some(ResyncBegun(book)), Timers(n))[i]
              == if book.gaps + i < 4 then Retry else if book.gaps + i == 4 then Exhausted else StaleNoOp
  {
    if n > 0 {
      assert Timers(n)[..n - 1] == Timers(n - 1);
      LostSnapshot(book, n - 1);
    }
  }
}
