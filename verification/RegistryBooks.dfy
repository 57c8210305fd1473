/**
 * The maintained book inside a registry entry: frames, resyncs and reseed timers driven through the
 * registry, interleaved in any order with registers, releases, terminations and removals.
 */
module RegistryBooks {
  import opened Util
  import opened Registry
  import opened RegistryLedger
  import BookBuilder
  import BookSide
  import GapRecovery
  import BookFeed
  import BookPrices
  import PriceLadder
  import RegistrySafety
  import ReplayOrder
  import RegistryStore

  /** What the reactor does to one key's book; a frame is `None` when its payload does not parse. */
  datatype BookEvent =
    | Arrives(isSnapshot: bool, frame: Option<GapRecovery.BookFrame>)
    | ResyncBegins
    | TimerFires

  /** Only the timer looks at whether the entry is a tombstone. */
  function AsEvent(e: BookEvent, tombstone: bool): GapRecovery.Event {
    match e
    case Arrives(isSnapshot, frame) => GapRecovery.Frame(isSnapshot, frame)
    case ResyncBegins => GapRecovery.ResyncBegins
    case TimerFires => GapRecovery.ReseedTimeout(tombstone)
  }

  /** An absent key answers like an entry without a book. */
  ghost function OnBook(s: Reg, k: Key, e: BookEvent): (Reg, GapRecovery.Outcome) {
    if k !in s.entries then (s, GapRecovery.Step(None, AsEvent(e, false)).1)
    else
      var entry := s.entries[k];
      var (builder, outcome) := GapRecovery.Step(entry.builder, AsEvent(e, IsTombstone(entry)));
      (s.(entries := s.entries[k := entry.(builder := builder)]), outcome)
  }

  // ---------------------------------------------------------------- which frames pass through

  /** A book that this frame does not reach: it does not parse, or is not for the book's symbol. */
  predicate Unreached(book: BookBuilder.Book, isSnapshot: bool, frame: Option<GapRecovery.BookFrame>) {
    && (book.resyncing ==> isSnapshot)
    && (frame.None? || frame.value.symbol != book.symbol)
  }

  lemma BookPassesThroughIff(slot: GapRecovery.Slot, isSnapshot: bool, frame: Option<GapRecovery.BookFrame>)
    ensures GapRecovery.OnFrame(slot, isSnapshot, frame).1.PassThrough?
            <==> slot.None? || Unreached(slot.value, isSnapshot, frame)
  {
    if slot.Some? && frame.Some? {
      var (after, r) := GapRecovery.AfterFrame(slot.value, isSnapshot, frame.value);
      assert !GapRecovery.Judge(after, r, frame.value).1.PassThrough?;
    }
  }

  /**
   * A frame passes through exactly when the key has no book or the frame does not reach it, and is not
   * held back by a resync.  Whether the entry is live plays no part.
   */
  lemma PassesThroughIff(s: Reg, k: Key, isSnapshot: bool, frame: Option<GapRecovery.BookFrame>)
    ensures OnBook(s, k, Arrives(isSnapshot, frame)).1.PassThrough?
            <==> k !in s.entries || s.entries[k].builder.None? || Unreached(s.entries[k].builder.value, isSnapshot, frame)
  {
    if k in s.entries {
      BookPassesThroughIff(s.entries[k].builder, isSnapshot, frame);
      assert OnBook(s, k, Arrives(isSnapshot, frame)).1 == GapRecovery.OnFrame(s.entries[k].builder, isSnapshot, frame).1;
    }
  }

  /** A snapshot for the book's symbol with the right checksum is delivered as maintained, dead or alive. */
  lemma SnapshotIsDelivered(s: Reg, k: Key, f: GapRecovery.BookFrame)
    requires k in s.entries && s.entries[k].builder.Some? && f.symbol == s.entries[k].builder.value.symbol
    requires var depth := s.entries[k].builder.value.depth;
             f.checksum == BookBuilder.SidesChecksum(PriceLadder.Top(BookSide.Seed(BookSide.Bid, f.bids), depth),
                                                     PriceLadder.Top(BookSide.Seed(BookSide.Ask, f.asks), depth))
    ensures OnBook(s, k, Arrives(true, Some(f))).1.Maintained?
  {
    var e := GapRecovery.Frame(true, Some(f));
    GapRecovery.SnapshotEndsTheWindow(s.entries[k].builder.value, e);
    assert OnBook(s, k, Arrives(true, Some(f))).1 == GapRecovery.Step(s.entries[k].builder, e).1;
  }

  /** A maintained book is subscribed and then rejected: its tombstone keeps the book. */
  lemma RejectedBookStays(url: WsUrl, symbol: string, depth: Depth, now: real, cause: Cause) returns (ops: seq<Op>)
    ensures var k := Key(Book, Some(symbol));
            && Legal(ops) && k in Run(ops).entries && IsTombstone(Run(ops).entries[k])
            && Run(ops).entries[k].builder == SeededBuilder(k, BookParams(depth))
  {
    var k := Key(Book, Some(symbol));
    var join, reject := RegisterBare(url, k, BookParams(depth), now), Terminate(k, cause, None);
    RegistrySafety.Extend([], join);
    RegistrySafety.Extend([] + [join], reject);
    ops := [] + [join] + [reject];
    var joined := Step(EMPTY, join);
    assert joined.entries[k].builder == SeededBuilder(k, BookParams(depth)) && !IsTombstone(joined.entries[k]);
    assert Run(ops) == NoteTerminated(joined, k, cause, None);
  }

  /** A tombstone does not pass its frames through: there is one whose next snapshot is delivered as maintained. */
  lemma TombstoneStillMaintains(url: WsUrl, symbol: string, depth: Depth, now: real, cause: Cause)
    ensures exists ops, k, f ::
              && Legal(ops) && k in Run(ops).entries && IsTombstone(Run(ops).entries[k])
              && OnBook(Run(ops), k, Arrives(true, Some(f))).1.Maintained?
  {
    var k, d := Key(Book, Some(symbol)), WireValue(WireDepth(depth));
    var ops := RejectedBookStays(url, symbol, depth, now, cause);
    var checksum := BookBuilder.SidesChecksum(PriceLadder.Top(BookSide.Seed(BookSide.Bid, []), d),
                                              PriceLadder.Top(BookSide.Seed(BookSide.Ask, []), d));
    SnapshotIsDelivered(Run(ops), k, GapRecovery.BookFrame(symbol, [], [], checksum, ""));
  }

  // ---------------------------------------------------------------- books and the accounting

  /** Driving a book changes that entry's book and nothing else. */
  lemma BooksLeaveTheAccounting(s: Reg, l: Ledger, k: Key, e: BookEvent)
    requires Matches(s, l)
    ensures Matches(OnBook(s, k, e).0, l)
  {
    var s' := OnBook(s, k, e).0;
    forall j ensures KeyMatches(s', l, j) {
      assert KeyMatches(s, l, j);
    }
  }

  lemma SequencesLeaveTheAccounting(s: Reg, l: Ledger, channel: Channel, sequence: nat, isSnapshot: bool)
    requires Matches(s, l)
    ensures Matches(NoteSequence(s, channel, sequence, isSnapshot).0, l)
  {
    var s' := NoteSequence(s, channel, sequence, isSnapshot).0;
    forall j ensures KeyMatches(s', l, j) {
      assert KeyMatches(s, l, j);
    }
  }

  /** One thing the reactor does: a registry operation, a book event or a frame sequence. */
  datatype Act =
    | Account(op: Op)
    | Drive(key: Key, event: BookEvent)
    | Number(channel: Channel, sequence: nat, isSnapshot: bool)

  ghost function Do(s: Reg, a: Act): Reg {
    match a
    case Account(op) => Step(s, op)
    case Drive(k, e) => OnBook(s, k, e).0
    case Number(channel, sequence, isSnapshot) => NoteSequence(s, channel, sequence, isSnapshot).0
  }

  ghost function Play(acts: seq<Act>): Reg {
    if acts == [] then EMPTY else Do(Play(acts[..|acts| - 1]), acts[|acts| - 1])
  }

  /** The registry operations of a run, in order. */
  function OpsOf(acts: seq<Act>): seq<Op> {
    if acts == [] then []
    else OpsOf(acts[..|acts| - 1]) + if acts[|acts| - 1].Account? then [acts[|acts| - 1].op] else []
  }

  /** With books driven and sequences noted in between in any way, the registry still simulates the ledger of its operations. */
  lemma {:induction false} PlaySimulation(acts: seq<Act>)
    requires Legal(OpsOf(acts))
    ensures Matches(Play(acts), LRun(OpsOf(acts)))
  {
    if acts == [] {
      Simulation([]);
    } else {
      var init, a := acts[..|acts| - 1], acts[|acts| - 1];
      match a {
        case Account(op) =>
          RegistrySafety.Extend(OpsOf(init), op);
          PlaySimulation(init);
          StepMatches(Play(init), LRun(OpsOf(init)), op);
        case Drive(k, e) =>
          assert OpsOf(acts) == OpsOf(init);
          PlaySimulation(init);
          BooksLeaveTheAccounting(Play(init), LRun(OpsOf(init)), k, e);
        case Number(channel, sequence, isSnapshot) =>
          assert OpsOf(acts) == OpsOf(init);
          PlaySimulation(init);
          SequencesLeaveTheAccounting(Play(init), LRun(OpsOf(init)), channel, sequence, isSnapshot);
      }
    }
  }

  // ---------------------------------------------------------------- what a lifetime keeps

  /**
   * What a key's present lifetime has been through, told from the acts alone: where the key routes since it
   * came in, the options the lifetime began with, how far its subscription got, the last sequence noted, the
   * book it was seeded with and every event that has reached it.
   */
  datatype Tenure = Tenure(url: WsUrl, params: Params, state: SubState, lastSequence: Option<nat>,
                           seed: Option<BookBuilder.Book>, events: seq<GapRecovery.Event>)

  const NO_TENURE: Tenure := Tenure(Public, OtherParams(0), Pending, None, None, [])

  /** A register of `k`: its url and options. */
  function Registers(op: Op, k: Key): Option<(WsUrl, Params)> {
    match op
    case RegisterBare(url, j, params, _) => if j == k then Some((url, params)) else None
    case RegisterGuard(url, g, params, _) => if g.key == k then Some((url, params)) else None
    case _ => None
  }

  /** Does `op` begin a lifetime of `k`? */
  predicate Begins(s: Reg, op: Op, k: Key) {
    Registers(op, k).Some? && (k !in s.entries || s.entries[k].count == 0)
  }

  /** A lifetime begins with the options of its first subscriber; a revived key keeps its route. */
  function TenureStep(s: Reg, t: Tenure, a: Act, k: Key): Tenure {
    match a
    case Account(op) =>
      if Begins(s, op, k) then
        var (url, params) := Registers(op, k).value;
        Tenure(if k in s.entries then t.url else url, params, Pending, None, SeededBuilder(k, params), [])
      else if op == Ack(k) && t.state == Pending then t.(state := Acked)
      else if op.Terminate? && op.key == k && !t.state.Terminated? then t.(state := Terminated(op.cause, op.lastError))
      else t
    case Drive(j, e) =>
      if j == k && k in s.entries then t.(events := t.events + [AsEvent(e, t.state.Terminated?)]) else t
    case Number(channel, sequence, _) =>
      if k == Key(channel, None) && k in s.entries then t.(lastSequence := Some(sequence)) else t
  }

  ghost function TenureOf(acts: seq<Act>, k: Key): Tenure {
    if acts == [] then NO_TENURE
    else TenureStep(Play(acts[..|acts| - 1]), TenureOf(acts[..|acts| - 1], k), acts[|acts| - 1], k)
  }

  ghost predicate Keeps(e: Entry, k: Key, t: Tenure) {
    && e.url == t.url && e.params == t.params && e.state == t.state && e.lastSequence == t.lastSequence
    && e.builder == GapRecovery.SlotAfter(t.seed, t.events) && t.seed == SeededBuilder(k, t.params)
  }

  lemma SlotAfterOneMore(seed: GapRecovery.Slot, events: seq<GapRecovery.Event>, e: GapRecovery.Event)
    ensures GapRecovery.SlotAfter(seed, events + [e]) == GapRecovery.Step(GapRecovery.SlotAfter(seed, events), e).0
  {
    assert (events + [e])[..|events + [e]| - 1] == events;
  }

  lemma AccountKeeps(s: Reg, t: Tenure, op: Op, k: Key)
    requires k in s.entries ==> Keeps(s.entries[k], k, t)
    ensures k in Step(s, op).entries ==> Keeps(Step(s, op).entries[k], k, TenureStep(s, t, Account(op), k))
  {
    if !Touches(op, k) {
      RegistryUntouched(s, op, k);
    } else if op.RegisterBare? {
      RegisterKeeps(s, t, op.url, k, op.params, op.now, false);
    } else if op.RegisterGuard? {
      RegisterKeeps(s, t, op.url, k, op.params, op.now, true);
    } else if op.ReleaseBare? {
      ReleaseKeeps(s, t, k, true);
    } else if op.DropGuard? {
      ReleaseKeeps(s.(guardRefs := s.guardRefs - {op.guard}), t, k, false);
    }
  }

  lemma ReleaseKeeps(s: Reg, t: Tenure, k: Key, allowCredit: bool)
    requires k in s.entries ==> Keeps(s.entries[k], k, t)
    ensures k in ReleaseInner(s, k, allowCredit).0.entries ==>
              k in s.entries && Keeps(ReleaseInner(s, k, allowCredit).0.entries[k], k, t)
  {
  }

  /** The entry a register leaves: a joiner changes nothing of it, a first subscriber all but a revived route. */
  lemma RegisterKeeps(s: Reg, t: Tenure, url: WsUrl, k: Key, params: Params, now: real, guardBacked: bool)
    requires k in s.entries ==> Keeps(s.entries[k], k, t)
    ensures var e := Register(s, NewEntry(url, k, params), now, guardBacked).0.entries[k];
            if k in s.entries && s.entries[k].count > 0 then Keeps(e, k, t)
            else Keeps(e, k, Tenure(if k in s.entries then t.url else url, params, Pending, None, SeededBuilder(k, params), []))
  {
  }

  lemma DriveKeeps(s: Reg, t: Tenure, j: Key, e: BookEvent, k: Key)
    requires k in s.entries ==> Keeps(s.entries[k], k, t)
    ensures k in OnBook(s, j, e).0.entries ==> Keeps(OnBook(s, j, e).0.entries[k], k, TenureStep(s, t, Drive(j, e), k))
  {
    if j == k && k in s.entries {
      SlotAfterOneMore(t.seed, t.events, AsEvent(e, IsTombstone(s.entries[k])));
    }
  }

  /**
   * Over every run, a present entry is what its lifetime made it: it routes where the key came in, carries
   * the options and the book of the subscriber its lifetime began with, has been acked or terminated exactly
   * when that happened since, and has seen the sequences and book events since.  A later joiner changes none
   * of it; a revival starts all of it but the route anew.
   */
  lemma {:induction false} EntryOfItsLifetime(acts: seq<Act>, k: Key)
    requires k in Play(acts).entries
    ensures Keeps(Play(acts).entries[k], k, TenureOf(acts, k))
  {
    var init, a := acts[..|acts| - 1], acts[|acts| - 1];
    var s, t := Play(init), TenureOf(init, k);
    if k in s.entries { EntryOfItsLifetime(init, k); }
    match a
    case Account(op) => AccountKeeps(s, t, op, k);
    case Drive(j, e) => DriveKeeps(s, t, j, e, k);
    case Number(_, _, _) =>
  }

  /**
   * The gap budget of the registry: within one lifetime of a key, whatever happens around it, at most four
   * gaps or retries follow the last validated apply, and a fifth ends maintenance for that lifetime.
   */
  lemma LifetimeGapBudget(acts: seq<Act>, k: Key)
    requires k in Play(acts).entries && TenureOf(acts, k).seed.Some?
    ensures var t := TenureOf(acts, k);
            GapRecovery.WithinBudget(Play(acts).entries[k].builder, t.events, GapRecovery.Outcomes(t.seed, t.events))
  {
    EntryOfItsLifetime(acts, k);
    GapRecovery.GapBudget(TenureOf(acts, k).seed.value, TenureOf(acts, k).events);
  }

  /** A seeded book is named for its pair, shows the depth asked for and is deep enough for the checksum. */
  lemma SeededBook(k: Key, params: Params)
    ensures SeededBuilder(k, params).Some? <==> k.channel == Book && k.pair.Some? && params.BookParams?
    ensures SeededBuilder(k, params).Some? ==>
              var b := SeededBuilder(k, params).value;
              && b.symbol == k.pair.value && b.callerDepth == WireValue(params.depth)
              && b.callerDepth <= b.depth && b.depth >= 10 + 15 && (b.callerDepth >= 25 ==> b.depth == b.callerDepth)
              && b.bids == map[] && b.asks == map[] && b.gaps == 0 && !b.resyncing
  {
  }

  /**
   * A feed through the registry: when the latest events of a key's lifetime are a snapshot of the exchange
   * and then its deltas, whatever came before and whatever happened to other keys in between, the entry's
   * book is in step with the exchange and shows its best levels.
   */
  lemma EntryFollowsTheExchange(acts: seq<Act>, k: Key, before: seq<GapRecovery.Event>, feed: seq<GapRecovery.Event>,
                                bids: seq<BookSide.Ladder>, asks: seq<BookSide.Ladder>)
    requires k in Play(acts).entries && TenureOf(acts, k).seed.Some? && TenureOf(acts, k).events == before + feed
    requires GapRecovery.SlotAfter(TenureOf(acts, k).seed, before).Some?
    requires BookFeed.Feed(feed, TenureOf(acts, k).seed.value.symbol, bids, asks, TenureOf(acts, k).seed.value.depth)
    ensures var seed := TenureOf(acts, k).seed.value;
            Play(acts).entries[k].builder
            == Some(BookFeed.InStep(seed.symbol, seed.depth, seed.callerDepth, bids[|feed| - 1], asks[|feed| - 1]))
  {
    var t := TenureOf(acts, k);
    EntryOfItsLifetime(acts, k);
    SeededBook(k, t.params);
    BookFeed.SlotAfterBoth(t.seed, before, feed);
    BookFeed.SameBook(t.seed, before);
    BookFeed.FeedIsDelivered(GapRecovery.SlotAfter(t.seed, before).value, feed, bids, asks);
  }

  /** What the next frame of such a feed is answered with. */
  lemma NextFrameIsDelivered(acts: seq<Act>, k: Key, before: seq<GapRecovery.Event>, feed: seq<GapRecovery.Event>,
                             bids: seq<BookSide.Ladder>, asks: seq<BookSide.Ladder>,
                             f: GapRecovery.BookFrame, nextBids: BookSide.Ladder, nextAsks: BookSide.Ladder)
    requires k in Play(acts).entries && TenureOf(acts, k).seed.Some? && TenureOf(acts, k).events == before + feed
    requires GapRecovery.SlotAfter(TenureOf(acts, k).seed, before).Some?
    requires BookFeed.Feed(feed, TenureOf(acts, k).seed.value.symbol, bids, asks, TenureOf(acts, k).seed.value.depth)
    requires BookFeed.Change(GapRecovery.Frame(false, Some(f)), TenureOf(acts, k).seed.value.symbol, bids[|feed| - 1],
                             asks[|feed| - 1], nextBids, nextAsks, TenureOf(acts, k).seed.value.depth)
    ensures var seed := TenureOf(acts, k).seed.value;
            OnBook(Play(acts), k, Arrives(false, Some(f))).1
            == BookFeed.Delivered(GapRecovery.Frame(false, Some(f)), seed.symbol, seed.callerDepth, nextBids, nextAsks)
  {
    var t := TenureOf(acts, k);
    EntryFollowsTheExchange(acts, k, before, feed, bids, asks);
    EntryOfItsLifetime(acts, k);
    SeededBook(k, t.params);
    BookFeed.ChangeStep(GapRecovery.Frame(false, Some(f)), t.seed.value.symbol, t.seed.value.depth, t.seed.value.callerDepth,
                        bids[|feed| - 1], asks[|feed| - 1], nextBids, nextAsks);
  }

  /** Whatever an entry's book delivers has falling bids and rising asks. */
  lemma EntryDeliversInPrices(acts: seq<Act>, k: Key, e: BookEvent)
    requires k in Play(acts).entries && OnBook(Play(acts), k, e).1.Maintained?
    ensures var u := OnBook(Play(acts), k, e).1.update;
            && (forall i, j :: 0 <= i < j < |u.bids| ==> u.bids[i].price > u.bids[j].price)
            && (forall i, j :: 0 <= i < j < |u.asks| ==> u.asks[i].price < u.asks[j].price)
  {
    var t, entry := TenureOf(acts, k), Play(acts).entries[k];
    EntryOfItsLifetime(acts, k);
    assert entry.builder.Some?;
    BookFeed.SameBook(t.seed, t.events);
    SeededBook(k, t.params);
    BookFeed.DeliveredInPrices(t.seed.value, t.events, AsEvent(e, IsTombstone(entry)));
  }

  // ---------------------------------------------------------------- what is replayed

  lemma LiveByTheLedger(acts: seq<Act>, url: WsUrl, k: Key)
    requires Legal(OpsOf(acts))
    ensures k in ReplayOrder.LiveEntries(Play(acts), url)
            <==> At(LRun(OpsOf(acts)), k).phase.Live? && TenureOf(acts, k).url == url
    ensures k in Play(acts).entries ==> Play(acts).entries[k].key == k
  {
    PlaySimulation(acts);
    assert KeyMatches(Play(acts), LRun(OpsOf(acts)), k);
    if k in Play(acts).entries { EntryOfItsLifetime(acts, k); }
  }

  /**
   * The replay, over every legal run: exactly the keys whose lifetime is live in the ledger and that route to
   * the url, each with the options its lifetime began with.
   */
  lemma ReplayIsOfTheLifetimes(acts: seq<Act>, url: WsUrl, frames: seq<RegistryStore.Frame>, f: RegistryStore.Frame)
    requires Legal(OpsOf(acts)) && RegistryStore.IsBatch(frames, ReplayOrder.LiveEntries(Play(acts), url))
    ensures f in frames <==>
            (At(LRun(OpsOf(acts)), f.key).phase.Live? && TenureOf(acts, f.key).url == url
             && f.params == TenureOf(acts, f.key).params)
  {
    var m := ReplayOrder.LiveEntries(Play(acts), url);
    forall k | k in m ensures m[k].key == k { LiveByTheLedger(acts, url, k); }
    RegistryStore.BatchMembers(frames, m, f);
    LiveByTheLedger(acts, url, f.key);
    if f.key in m { EntryOfItsLifetime(acts, f.key); }
  }

  /** A url has a live entry exactly when some key's lifetime is live and routes there. */
  lemma UrlEntryIsLive(acts: seq<Act>, url: WsUrl)
    requires Legal(OpsOf(acts))
    ensures HasUrlEntry(Play(acts), url)
            <==> exists k :: At(LRun(OpsOf(acts)), k).phase.Live? && TenureOf(acts, k).url == url
  {
    var s := Play(acts);
    if HasUrlEntry(s, url) {
      var k :| k in s.entries && s.entries[k].url == url && !IsTombstone(s.entries[k]);
      LiveByTheLedger(acts, url, k);
      assert At(LRun(OpsOf(acts)), k).phase.Live? && TenureOf(acts, k).url == url;
    }
    if exists k :: At(LRun(OpsOf(acts)), k).phase.Live? && TenureOf(acts, k).url == url {
      var k :| At(LRun(OpsOf(acts)), k).phase.Live? && TenureOf(acts, k).url == url;
      LiveByTheLedger(acts, url, k);
      assert k in ReplayOrder.LiveEntries(s, url);
    }
  }

  // ---------------------------------------------------------------- frames skipped

  /** The frames reported skipped while `sequences` arrive, none of them a snapshot. */
  function SkippedSum(last: nat, sequences: seq<nat>): nat
    decreases |sequences|
  {
    if sequences == [] then 0
    else
      var report := Skipped(Some(last), sequences[0], false);
      (if report.Some? then report.value else 0) + SkippedSum(sequences[0], sequences[1..])
  }

  predicate Rising(last: nat, sequences: seq<nat>)
    decreases |sequences|
  {
    sequences == [] || (last < sequences[0] <= last + U32_MAX && Rising(sequences[0], sequences[1..]))
  }

  /** Every number is accounted for: what arrived and what was reported skipped make up the whole distance. */
  lemma {:induction false} NumbersAreAccounted(last: nat, sequences: seq<nat>)
    requires Rising(last, sequences)
    ensures last + |sequences| + SkippedSum(last, sequences)
         == if sequences == [] then last else sequences[|sequences| - 1]
    decreases |sequences|
  {
    if sequences != [] { NumbersAreAccounted(sequences[0], sequences[1..]); }
  }

  /** A snapshot, a first frame, a duplicate and a regression report nothing; a jump is reported, at most saturated. */
  lemma SkippedReports(last: Option<nat>, sequence: nat, isSnapshot: bool)
    ensures Skipped(last, sequence, isSnapshot).None? <==> isSnapshot || last.None? || sequence <= last.value + 1
    ensures Skipped(last, sequence, isSnapshot).Some? ==>
              var missed := Skipped(last, sequence, isSnapshot).value;
              last.value + 1 + missed == sequence || (missed == 0xFFFF_FFFF && last.value + 1 + missed < sequence)
  {
  }
}
