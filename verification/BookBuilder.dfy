/**
 * The maintained order book: both sides trimmed to the subscribed depth, every frame checked
 * against the exchange's checksum of the ten best levels.
 */
module BookBuilder {
  import opened Util
  import opened PriceLadder
  import opened Checksum
  import opened BookSide

  datatype Book = Book(symbol: string, depth: nat, callerDepth: nat, bids: Ladder, asks: Ladder,
                       lastChecksum: Option<bv32>, resyncing: bool, gaps: nat)

  datatype ApplyResult = Applied | ChecksumMismatch(expected: bv32, computed: bv32)

  datatype BookLevel = BookLevel(price: real, qty: real)

  datatype OrderBookUpdate = OrderBookUpdate(symbol: string, bids: seq<BookLevel>, asks: seq<BookLevel>,
                                             checksum: bv32, exchangeTimestamp: string)

  function EmptyBook(symbol: string, depth: nat, callerDepth: nat): Book {
    Book(symbol, depth, callerDepth, map[], map[], None, false, 0)
  }

  function Wires(levels: seq<PriceLevel>): seq<WireLevel> {
    seq(|levels|, i requires 0 <= i < |levels| => WireLevel(levels[i].priceWire, levels[i].qtyWire))
  }

  function Quotes(levels: seq<PriceLevel>): seq<BookLevel> {
    seq(|levels|, i requires 0 <= i < |levels| => BookLevel(levels[i].price, levels[i].qty))
  }

  /** The checksum of two sides: their ten best levels, asks first. */
  ghost function SidesChecksum(bids: Ladder, asks: Ladder): bv32 {
    BookCrc(Wires(TopList(asks, CHECKSUM_DEPTH)), Wires(TopList(bids, CHECKSUM_DEPTH)))
  }

  /** Comparing checksums: only a match records it and ends the streak of gaps. */
  ghost function Validated(b: Book, expected: bv32): (Book, ApplyResult) {
    var computed := SidesChecksum(b.bids, b.asks);
    if computed != expected then (b.(gaps := b.gaps + 1), ChecksumMismatch(expected, computed))
    else (b.(lastChecksum := Some(computed), gaps := 0), Applied)
  }

  ghost function AfterSnapshot(b: Book, bids: seq<PriceLevel>, asks: seq<PriceLevel>, checksum: bv32): (Book, ApplyResult) {
    Validated(b.(bids := Top(Seed(Bid, bids), b.depth), asks := Top(Seed(Ask, asks), b.depth), resyncing := false),
              checksum)
  }

  ghost function AfterDelta(b: Book, bids: seq<PriceLevel>, asks: seq<PriceLevel>, checksum: bv32): (Book, ApplyResult) {
    Validated(b.(bids := Top(Apply(b.bids, Bid, bids), b.depth), asks := Top(Apply(b.asks, Ask, asks), b.depth)),
              checksum)
  }

  function ResyncBegun(b: Book): Book {
    b.(bids := map[], asks := map[], lastChecksum := None, resyncing := true)
  }

  /** What the caller sees: both sides best first, capped to the depth asked for. */
  ghost function UpdateOf(b: Book, checksum: bv32, exchangeTimestamp: string): OrderBookUpdate {
    OrderBookUpdate(b.symbol, Quotes(TopList(b.bids, b.callerDepth)), Quotes(TopList(b.asks, b.callerDepth)),
                    checksum, exchangeTimestamp)
  }

  // ---------------------------------------------------------------- the builder

  /** The first `n` values of a sorted map. */
  method TakeValues(side: Ladder, n: nat) returns (levels: seq<PriceLevel>)
    ensures levels == TopList(side, n)
  {
    levels := [];
    var rest := side;
    while rest != map[] && |levels| < n
      invariant |levels| <= n
      invariant levels + TopList(rest, n - |levels|) == TopList(side, n)
      decreases rest.Keys
    {
      ghost var _ := BestExists(rest.Keys);
      var b :| b in rest && forall x :: x in rest ==> b <= x;
      TopListHead(rest, n - |levels|, b);
      levels := levels + [rest[b]];
      rest := rest - {b};
    }
    NothingLeftToList(rest, n - |levels|);
  }

  /** Pops the worst level of a side until it is no deeper than `depth`. */
  method TrimSide(side: Ladder, depth: nat) returns (trimmed: Ladder)
    ensures trimmed == Top(side, depth)
  {
    trimmed := side;
    while |trimmed| > depth
      invariant Top(trimmed, depth) == Top(side, depth)
    {
      ghost var _ := WorstExists(trimmed.Keys);
      var w :| w in trimmed && forall x :: x in trimmed ==> x <= w;
      PopKeepsTop(trimmed, depth, w);
      trimmed := trimmed - {w};
    }
    TopOfShallow(trimmed.Keys, depth);
    assert Top(trimmed, depth) == trimmed;
  }

  lemma PopKeepsTop(side: Ladder, depth: nat, w: real)
    requires |side| > depth && w in side && forall x :: x in side ==> x <= w
    ensures Top(side - {w}, depth) == Top(side, depth)
  {
    assert |side.Keys| == |side|;
    assert (side - {w}).Keys == side.Keys - {w};
    DropWorst(side.Keys, depth, w);
  }

  class OrderBookBuilder {
    const symbol: string
    const maintainedDepth: nat
    const callerDepth: nat
    var bids: Ladder
    var asks: Ladder
    var lastChecksum: Option<bv32>
    var resyncing: bool
    var consecutiveGaps: nat

    ghost function View(): Book
      reads this
    {
      Book(symbol, maintainedDepth, callerDepth, bids, asks, lastChecksum, resyncing, consecutiveGaps)
    }

    constructor (symbol: string, maintainedDepth: nat, callerDepth: nat)
      ensures View() == EmptyBook(symbol, maintainedDepth, callerDepth)
    {
      this.symbol, this.maintainedDepth, this.callerDepth := symbol, maintainedDepth, callerDepth;
      bids, asks, lastChecksum := map[], map[], None;
      resyncing, consecutiveGaps := false, 0;
    }

    method BeginResync()
      modifies this
      ensures View() == ResyncBegun(old(View()))
    {
      bids, asks := map[], map[];
      lastChecksum := None;
      resyncing := true;
    }

    method NoteReseedFailure() returns (gaps: nat)
      modifies this
      ensures View() == old(View()).(gaps := old(consecutiveGaps) + 1)
      ensures gaps == consecutiveGaps
    {
      consecutiveGaps := consecutiveGaps + 1;
      gaps := consecutiveGaps;
    }

    method ApplySnapshot(newBids: seq<PriceLevel>, newAsks: seq<PriceLevel>, checksum: bv32) returns (r: ApplyResult)
      modifies this
      ensures (View(), r) == AfterSnapshot(old(View()), newBids, newAsks, checksum)
    {
      bids, asks := map[], map[];
      for i := 0 to |newBids|
        invariant View() == old(View()).(bids := Seed(Bid, newBids[..i]), asks := map[])
      {
        assert newBids[..i + 1][..i] == newBids[..i];
        bids := bids[KeyOf(Bid, newBids[i]) := newBids[i]];
      }
      assert newBids[..|newBids|] == newBids;
      for i := 0 to |newAsks|
        invariant View() == old(View()).(bids := Seed(Bid, newBids), asks := Seed(Ask, newAsks[..i]))
      {
        assert newAsks[..i + 1][..i] == newAsks[..i];
        asks := asks[KeyOf(Ask, newAsks[i]) := newAsks[i]];
      }
      assert newAsks[..|newAsks|] == newAsks;
      resyncing := false;
      TrimToDepth();
      r := ValidateAndRecord(checksum);
    }

    method ApplyDelta(bidUpdates: seq<PriceLevel>, askUpdates: seq<PriceLevel>, checksum: bv32) returns (r: ApplyResult)
      modifies this
      ensures (View(), r) == AfterDelta(old(View()), bidUpdates, askUpdates, checksum)
    {
      for i := 0 to |bidUpdates|
        invariant View() == old(View()).(bids := Apply(old(bids), Bid, bidUpdates[..i]))
      {
        var level := bidUpdates[i];
        assert bidUpdates[..i + 1][..i] == bidUpdates[..i];
        if Deletes(level) {
          bids := bids - {KeyOf(Bid, level)};
        } else {
          bids := bids[KeyOf(Bid, level) := level];
        }
      }
      assert bidUpdates[..|bidUpdates|] == bidUpdates;
      for i := 0 to |askUpdates|
        invariant View() == old(View()).(bids := Apply(old(bids), Bid, bidUpdates), asks := Apply(old(asks), Ask, askUpdates[..i]))
      {
        var level := askUpdates[i];
        assert askUpdates[..i + 1][..i] == askUpdates[..i];
        if Deletes(level) {
          asks := asks - {KeyOf(Ask, level)};
        } else {
          asks := asks[KeyOf(Ask, level) := level];
        }
      }
      assert askUpdates[..|askUpdates|] == askUpdates;
      TrimToDepth();
      r := ValidateAndRecord(checksum);
    }

    method TrimToDepth()
      modifies this
      ensures View() == old(View()).(bids := Top(old(bids), maintainedDepth), asks := Top(old(asks), maintainedDepth))
    {
      bids := TrimSide(bids, maintainedDepth);
      asks := TrimSide(asks, maintainedDepth);
    }

    method ValidateAndRecord(expected: bv32) returns (r: ApplyResult)
      modifies this
      ensures (View(), r) == Validated(old(View()), expected)
    {
      var computed := ComputeChecksum();
      if computed != expected {
        consecutiveGaps := consecutiveGaps + 1;
        return ChecksumMismatch(expected, computed);
      }
      lastChecksum := Some(computed);
      consecutiveGaps := 0;
      r := Applied;
    }

    method ComputeChecksum() returns (crc: bv32)
      ensures crc == SidesChecksum(bids, asks)
    {
      var topAsks := TakeValues(asks, CHECKSUM_DEPTH);
      var topBids := TakeValues(bids, CHECKSUM_DEPTH);
      crc := ComputeBookCrc32(Wires(topAsks), Wires(topBids));
    }

    method BuildUpdate(checksum: bv32, exchangeTimestamp: string) returns (u: OrderBookUpdate)
      ensures u == UpdateOf(View(), checksum, exchangeTimestamp)
    {
      var topBids := TakeValues(bids, callerDepth);
      var topAsks := TakeValues(asks, callerDepth);
      u := OrderBookUpdate(symbol, Quotes(topBids), Quotes(topAsks), checksum, exchangeTimestamp);
    }
  }

  // ---------------------------------------------------------------- headroom of the checksum

  datatype Delta = Delta(bids: seq<PriceLevel>, asks: seq<PriceLevel>, checksum: bv32)

  /** The book after a run of deltas; a mismatch changes no level back. */
  ghost function DeltaRun(b: Book, deltas: seq<Delta>): Book {
    if deltas == [] then b
    else
      var last := deltas[|deltas| - 1];
      AfterDelta(DeltaRun(b, deltas[..|deltas| - 1]), last.bids, last.asks, last.checksum).0
  }

  function SideOf(side: SideKind, d: Delta): seq<PriceLevel> {
    if side == Bid then d.bids else d.asks
  }

  function SideDeltas(side: SideKind, deltas: seq<Delta>): seq<seq<PriceLevel>> {
    seq(|deltas|, i requires 0 <= i < |deltas| => SideOf(side, deltas[i]))
  }

  function LadderOf(side: SideKind, b: Book): Ladder {
    if side == Bid then b.bids else b.asks
  }

  /** Each side of the book goes its own way: checksums never change a level. */
  lemma {:induction false} DeltaRunSide(b: Book, deltas: seq<Delta>, side: SideKind)
    ensures DeltaRun(b, deltas).depth == b.depth && DeltaRun(b, deltas).symbol == b.symbol
    ensures DeltaRun(b, deltas).callerDepth == b.callerDepth
    ensures LadderOf(side, DeltaRun(b, deltas)) == TrimmedRun(LadderOf(side, b), side, SideDeltas(side, deltas), b.depth)
    decreases |deltas|
  {
    if deltas != [] {
      var init, n := deltas[..|deltas| - 1], |deltas| - 1;
      DeltaRunSide(b, init, side);
      DeltaStepSide(DeltaRun(b, init), deltas[n], side);
      var all := SideDeltas(side, deltas);
      assert all[..n] == SideDeltas(side, init) && all[n] == SideOf(side, deltas[n]);
      TrimmedRunLast(LadderOf(side, b), side, all, b.depth);
    }
  }

  lemma TrimmedRunLast(ladder: Ladder, side: SideKind, deltas: seq<seq<PriceLevel>>, depth: nat)
    requires deltas != []
    ensures TrimmedRun(ladder, side, deltas, depth)
         == Top(Apply(TrimmedRun(ladder, side, deltas[..|deltas| - 1], depth), side, deltas[|deltas| - 1]), depth)
  {
  }

  lemma DeltaStepSide(b: Book, d: Delta, side: SideKind)
    ensures var after := AfterDelta(b, d.bids, d.asks, d.checksum).0;
            after.depth == b.depth && after.symbol == b.symbol && after.callerDepth == b.callerDepth
            && LadderOf(side, after) == Top(Apply(LadderOf(side, b), side, SideOf(side, d)), b.depth)
  {
  }

  /** How many levels the deltas remove from one side of the maintained book after a snapshot. */
  function SnapshotRemovals(depth: nat, levels: seq<PriceLevel>, side: SideKind, deltas: seq<Delta>): nat {
    RunRemovals(Top(Seed(side, levels), depth), side, SideDeltas(side, deltas), depth)
  }

  /**
   * Checksum headroom: after a snapshot, the maintained book's checksum is that of the book nobody
   * ever trimmed, until more than `depth - 10` levels have been removed from a side.
   */
  lemma ChecksumHeadroom(b: Book, bids: seq<PriceLevel>, asks: seq<PriceLevel>, checksum: bv32, deltas: seq<Delta>)
    requires SnapshotRemovals(b.depth, bids, Bid, deltas) + CHECKSUM_DEPTH <= b.depth
    requires SnapshotRemovals(b.depth, asks, Ask, deltas) + CHECKSUM_DEPTH <= b.depth
    ensures var kept := DeltaRun(AfterSnapshot(b, bids, asks, checksum).0, deltas);
            SidesChecksum(kept.bids, kept.asks)
            == SidesChecksum(FullRun(Seed(Bid, bids), Bid, SideDeltas(Bid, deltas)),
                             FullRun(Seed(Ask, asks), Ask, SideDeltas(Ask, deltas)))
  {
    var start := AfterSnapshot(b, bids, asks, checksum).0;
    DeltaRunSide(start, deltas, Bid);
    DeltaRunSide(start, deltas, Ask);
    SideHeadroom(Seed(Bid, bids), Bid, SideDeltas(Bid, deltas), b.depth);
    SideHeadroom(Seed(Ask, asks), Ask, SideDeltas(Ask, deltas), b.depth);
  }

  lemma SideHeadroom(seed: Ladder, side: SideKind, deltas: seq<seq<PriceLevel>>, depth: nat)
    requires RunRemovals(Top(seed, depth), side, deltas, depth) + CHECKSUM_DEPTH <= depth
    ensures TopList(TrimmedRun(Top(seed, depth), side, deltas, depth), CHECKSUM_DEPTH)
         == TopList(FullRun(seed, side, deltas), CHECKSUM_DEPTH)
  {
    HeadroomRun(seed, side, deltas, depth, CHECKSUM_DEPTH);
    SameTopSameList(TrimmedRun(Top(seed, depth), side, deltas, depth), FullRun(seed, side, deltas), CHECKSUM_DEPTH);
  }

  /**
   * A book that follows the exchange: each delta is a faithful window change of the full book, so
   * the maintained sides, the checksum and the caller's view are those of the full book.
   */
  lemma MaintainedBookIsTheWindow(b: Book, fullBids: seq<Ladder>, fullAsks: seq<Ladder>, deltas: seq<Delta>)
    requires |fullBids| == |fullAsks| == |deltas| + 1
    requires b.bids == Top(fullBids[0], b.depth) && b.asks == Top(fullAsks[0], b.depth)
    requires forall i :: 0 <= i < |deltas| ==> Follows(Bid, deltas[i].bids, fullBids[i], fullBids[i + 1], b.depth)
    requires forall i :: 0 <= i < |deltas| ==> Follows(Ask, deltas[i].asks, fullAsks[i], fullAsks[i + 1], b.depth)
    ensures var kept := DeltaRun(b, deltas);
            && kept.bids == Top(fullBids[|deltas|], b.depth)
            && kept.asks == Top(fullAsks[|deltas|], b.depth)
            && (b.depth >= CHECKSUM_DEPTH ==>
                  SidesChecksum(kept.bids, kept.asks) == SidesChecksum(fullBids[|deltas|], fullAsks[|deltas|]))
            && (b.callerDepth <= b.depth ==>
                  forall checksum, timestamp ::
                    UpdateOf(kept, checksum, timestamp)
                    == OrderBookUpdate(b.symbol, Quotes(TopList(fullBids[|deltas|], b.callerDepth)),
                                       Quotes(TopList(fullAsks[|deltas|], b.callerDepth)), checksum, timestamp))
  {
    DeltaRunSide(b, deltas, Bid);
    DeltaRunSide(b, deltas, Ask);
    WindowExactRun(fullBids, Bid, SideDeltas(Bid, deltas), b.depth);
    WindowExactRun(fullAsks, Ask, SideDeltas(Ask, deltas), b.depth);
    if b.depth >= CHECKSUM_DEPTH {
      WindowLists(fullBids[|deltas|], CHECKSUM_DEPTH, b.depth);
      WindowLists(fullAsks[|deltas|], CHECKSUM_DEPTH, b.depth);
    }
    if b.callerDepth <= b.depth {
      WindowLists(fullBids[|deltas|], b.callerDepth, b.depth);
      WindowLists(fullAsks[|deltas|], b.callerDepth, b.depth);
    }
  }

  /** A window lists the best `n` levels of the side behind it, for any `n` it is deep enough for. */
  lemma WindowLists(full: Ladder, n: nat, depth: nat)
    requires n <= depth
    ensures TopList(Top(full, depth), n) == TopList(full, n)
  {
    TrimAgrees(full, full, n, depth);
    SameTopSameList(Top(full, depth), full, n);
  }
}
