/**
 * The maintained book in prices.  The ladders are ordered by an internal key; here nothing is said about
 * keys, only about the prices and quantities callers and the exchange see.
 */
module BookPrices {
  import opened PriceLadder
  import opened Checksum
  import opened BookSide
  import opened BookBuilder

  /** Price `p` is better than `q`: higher for a bid, lower for an ask. */
  predicate Ahead(side: SideKind, p: real, q: real) {
    if side == Bid then p > q else p < q
  }

  /** Every level of a side is filed under its own price. */
  ghost predicate OwnPrices(side: SideKind, ladder: Ladder) {
    forall k :: k in ladder ==> k == if side == Bid then -ladder[k].price else ladder[k].price
  }

  /** A side has this very level. */
  ghost predicate Has(ladder: Ladder, l: PriceLevel) {
    exists k :: k in ladder && ladder[k] == l
  }

  lemma FiledByPrice(side: SideKind, ladder: Ladder, l: PriceLevel)
    requires OwnPrices(side, ladder)
    ensures Has(ladder, l) <==> KeyOf(side, l) in ladder && ladder[KeyOf(side, l)] == l
  {
  }

  // ---------------------------------------------------------------- what a side holds

  /** No later level of the message has the same price. */
  ghost predicate LastOfItsPrice(levels: seq<PriceLevel>, i: nat)
    requires i < |levels|
  {
    forall j :: i < j < |levels| ==> levels[j].price != levels[i].price
  }

  /** `l` is the last word of the message on its price. */
  ghost predicate Settles(levels: seq<PriceLevel>, l: PriceLevel) {
    exists i :: 0 <= i < |levels| && levels[i] == l && LastOfItsPrice(levels, i)
  }

  ghost predicate Silent(levels: seq<PriceLevel>, price: real) {
    forall i :: 0 <= i < |levels| ==> levels[i].price != price
  }

  lemma SettlesSnoc(init: seq<PriceLevel>, last: PriceLevel, l: PriceLevel)
    ensures Settles(init + [last], l) <==> l == last || (Settles(init, l) && l.price != last.price)
    ensures Silent(init + [last], l.price) <==> Silent(init, l.price) && l.price != last.price
  {
    var levels := init + [last];
    assert levels[|init|] == last && forall i :: 0 <= i < |init| ==> levels[i] == init[i];
    if l == last { assert LastOfItsPrice(levels, |init|); }
    if Settles(init, l) && l.price != last.price {
      var i :| 0 <= i < |init| && init[i] == l && LastOfItsPrice(init, i);
      assert levels[i] == l && LastOfItsPrice(levels, i);
    }
    if Settles(levels, l) && l != last {
      var i :| 0 <= i < |levels| && levels[i] == l && LastOfItsPrice(levels, i);
      assert init[i] == l;
      forall j | i < j < |init| ensures init[j].price != init[i].price {
        assert levels[j].price != levels[i].price;
      }
      assert LastOfItsPrice(init, i) && levels[|init|].price != levels[i].price;
    }
  }

  /** A snapshot is held unfiltered: a level is there exactly when it is the last one of its price. */
  lemma {:induction false} SnapshotLevels(side: SideKind, levels: seq<PriceLevel>, l: PriceLevel)
    ensures OwnPrices(side, Seed(side, levels))
    ensures Has(Seed(side, levels), l) <==> Settles(levels, l)
    decreases |levels|
  {
    if levels != [] {
      var init, last := levels[..|levels| - 1], levels[|levels| - 1];
      assert levels == init + [last];
      SnapshotLevels(side, init, l);
      SettlesSnoc(init, last, l);
      FiledByPrice(side, Seed(side, init), l);
      FiledByPrice(side, Seed(side, levels), l);
    }
  }

  /**
   * A delta replaces prices one by one: a level is there afterwards exactly when it is the delta's last word
   * on its price and no deletion, or was there and the delta is silent about its price.
   */
  lemma {:induction false} DeltaLevels(ladder: Ladder, side: SideKind, levels: seq<PriceLevel>, l: PriceLevel)
    requires OwnPrices(side, ladder)
    ensures OwnPrices(side, Apply(ladder, side, levels))
    ensures Has(Apply(ladder, side, levels), l)
            <==> (Settles(levels, l) && !Deletes(l)) || (Has(ladder, l) && Silent(levels, l.price))
    decreases |levels|
  {
    if levels != [] {
      var init, last := levels[..|levels| - 1], levels[|levels| - 1];
      assert levels == init + [last];
      DeltaLevels(ladder, side, init, l);
      SettlesSnoc(init, last, l);
      FiledByPrice(side, Apply(ladder, side, init), l);
      FiledByPrice(side, Apply(ladder, side, levels), l);
    }
  }

  /** The digits of a wire quantity read as one number. */
  function DigitsValue(s: seq<byte>): nat {
    if s == [] then 0
    else
      var rest, b := DigitsValue(s[..|s| - 1]), s[|s| - 1];
      if 48 <= b <= 57 then rest * 10 + (b - 48) as int else rest
  }

  /** A delta level deletes exactly when its wire quantity is a zero, however it is written. */
  lemma DeletesAZero(level: PriceLevel)
    ensures Deletes(level) <==> DigitsValue(level.qtyWire) == 0
  {
    ZeroDigits(level.qtyWire);
  }

  lemma {:induction false} ZeroDigits(s: seq<byte>)
    ensures (forall i :: 0 <= i < |s| ==> !(49 <= s[i] <= 57)) <==> DigitsValue(s) == 0
    decreases |s|
  {
    if s != [] {
      ZeroDigits(s[..|s| - 1]);
      assert s == s[..|s| - 1] + [s[|s| - 1]];
    }
  }

  // ---------------------------------------------------------------- the best levels

  /** `ls` is the side's best `n` levels, best first: nothing left out has as good a price as any of them. */
  ghost predicate BestFirst(side: SideKind, ls: seq<PriceLevel>, ladder: Ladder, n: nat) {
    && |ls| == (if |ladder| < n then |ladder| else n)
    && (forall i, j :: 0 <= i < j < |ls| ==> Ahead(side, ls[i].price, ls[j].price))
    && (forall l :: l in ls ==> Has(ladder, l))
    && (forall l, i :: Has(ladder, l) && l !in ls && 0 <= i < |ls| ==> Ahead(side, ls[i].price, l.price))
  }

  lemma {:induction false} LevelsAtIndex<L>(ladder: map<real, L>, keys: seq<real>)
    requires forall i :: 0 <= i < |keys| ==> keys[i] in ladder
    ensures |LevelsAt(ladder, keys)| == |keys|
    ensures forall i :: 0 <= i < |keys| ==> LevelsAt(ladder, keys)[i] == ladder[keys[i]]
    decreases |keys|
  {
    if keys != [] {
      LevelsAtIndex(ladder, keys[1..]);
      assert forall i :: 1 <= i < |keys| ==> LevelsAt(ladder, keys)[i] == LevelsAt(ladder, keys[1..])[i - 1];
    }
  }

  lemma TopCount(ladder: Ladder, n: nat)
    ensures |TopKeys(ladder.Keys, n)| == if |ladder| < n then |ladder| else n
  {
    assert |ladder.Keys| == |ladder|;
    if |ladder| < n { TopOfShallow(ladder.Keys, n); } else { TopSize(ladder.Keys, n); }
  }

  /** A key kept in the top `n` is below every key left out. */
  lemma KeptBelowDropped(keys: set<real>, n: nat, kept: real, dropped: real)
    requires kept in TopKeys(keys, n) && dropped in keys && dropped !in TopKeys(keys, n)
    ensures kept < dropped
  {
    if dropped <= kept { BetterShrinks(keys, keys, dropped, kept); }
  }

  /** No level that trimming drops has as good a price as one it keeps. */
  lemma TrimmedInPrices(side: SideKind, ladder: Ladder, depth: nat, kept: PriceLevel, dropped: PriceLevel)
    requires OwnPrices(side, ladder) && Has(Top(ladder, depth), kept)
    requires Has(ladder, dropped) && !Has(Top(ladder, depth), dropped)
    ensures Ahead(side, kept.price, dropped.price)
    ensures OwnPrices(side, Top(ladder, depth)) && |Top(ladder, depth)| == if |ladder| < depth then |ladder| else depth
  {
    var top := Top(ladder, depth);
    var i :| i in top && top[i] == kept;
    var j :| j in ladder && ladder[j] == dropped;
    assert j !in top;
    KeptBelowDropped(ladder.Keys, depth, i, j);
    TopCount(ladder, depth);
    assert top.Keys == TopKeys(ladder.Keys, depth) && |top.Keys| == |top|;
  }

  lemma TopKeepsPrices(side: SideKind, ladder: Ladder, depth: nat)
    requires OwnPrices(side, ladder)
    ensures OwnPrices(side, Top(ladder, depth))
  {
  }

  lemma KeptIsListed(ladder: Ladder, n: nat, k: real)
    ensures k in TopKeys(ladder.Keys, n) ==> ladder[k] in TopList(ladder, n)
  {
    if k in TopKeys(ladder.Keys, n) {
      var keys := Listing(TopKeys(ladder.Keys, n));
      ListedKeys(TopKeys(ladder.Keys, n));
      LevelsAtIndex(ladder, keys);
      assert k in keys;
      var j :| 0 <= j < |keys| && keys[j] == k;
      assert TopList(ladder, n)[j] == ladder[k];
    }
  }

  /** Taking the first `n` levels takes the `n` best prices, in order. */
  lemma ListedInPrices(side: SideKind, ladder: Ladder, n: nat)
    requires OwnPrices(side, ladder)
    ensures BestFirst(side, TopList(ladder, n), ladder, n)
  {
    var top := TopKeys(ladder.Keys, n);
    var keys, ls := Listing(top), TopList(ladder, n);
    ListedKeys(top);
    LevelsAtIndex(ladder, keys);
    ListingLength(keys, top);
    TopCount(ladder, n);
    forall l, i | Has(ladder, l) && l !in ls && 0 <= i < |ls| ensures Ahead(side, ls[i].price, l.price) {
      var k :| k in ladder && ladder[k] == l;
      KeptIsListed(ladder, n, k);
      KeptBelowDropped(ladder.Keys, n, keys[i], k);
    }
  }

  // ---------------------------------------------------------------- the whole book

  ghost predicate Priced(b: Book) {
    OwnPrices(Bid, b.bids) && OwnPrices(Ask, b.asks)
  }

  lemma SidePriced(ladder: Ladder, side: SideKind, levels: seq<PriceLevel>, depth: nat)
    ensures OwnPrices(side, Top(Seed(side, levels), depth))
    ensures OwnPrices(side, ladder) ==> OwnPrices(side, Top(Apply(ladder, side, levels), depth))
  {
    var any := PriceLevel(0.0, 0.0, [], []);
    SnapshotLevels(side, levels, any);
    TopKeepsPrices(side, Seed(side, levels), depth);
    if OwnPrices(side, ladder) {
      DeltaLevels(ladder, side, levels, any);
      TopKeepsPrices(side, Apply(ladder, side, levels), depth);
    }
  }

  /** What a book does to its levels it does at their own prices. */
  lemma BookStaysPriced(b: Book, bids: seq<PriceLevel>, asks: seq<PriceLevel>, checksum: bv32)
    ensures Priced(AfterSnapshot(b, bids, asks, checksum).0)
    ensures Priced(b) ==> Priced(AfterDelta(b, bids, asks, checksum).0)
    ensures Priced(ResyncBegun(b)) && (b.bids == map[] && b.asks == map[] ==> Priced(b))
  {
    SidePriced(b.bids, Bid, bids, b.depth);
    SidePriced(b.asks, Ask, asks, b.depth);
  }

  /** `quotes` are the prices and quantities of `ls`. */
  ghost predicate Shows(quotes: seq<BookLevel>, ls: seq<PriceLevel>) {
    |quotes| == |ls| && forall i :: 0 <= i < |ls| ==> quotes[i].price == ls[i].price && quotes[i].qty == ls[i].qty
  }

  /** The caller's update: the best bids by falling and the best asks by rising price, to the depth asked for. */
  lemma UpdateInPrices(b: Book, checksum: bv32, timestamp: string)
    requires Priced(b)
    ensures var u := UpdateOf(b, checksum, timestamp);
            && u.symbol == b.symbol && u.checksum == checksum && u.exchangeTimestamp == timestamp
            && (exists bids, asks :: BestFirst(Bid, bids, b.bids, b.callerDepth) && Shows(u.bids, bids)
                                     && BestFirst(Ask, asks, b.asks, b.callerDepth) && Shows(u.asks, asks))
    ensures var u := UpdateOf(b, checksum, timestamp);
            && (forall i, j :: 0 <= i < j < |u.bids| ==> u.bids[i].price > u.bids[j].price)
            && (forall i, j :: 0 <= i < j < |u.asks| ==> u.asks[i].price < u.asks[j].price)
  {
    ListedInPrices(Bid, b.bids, b.callerDepth);
    ListedInPrices(Ask, b.asks, b.callerDepth);
    var u := UpdateOf(b, checksum, timestamp);
    assert Shows(u.bids, TopList(b.bids, b.callerDepth)) && Shows(u.asks, TopList(b.asks, b.callerDepth));
  }

  /** What a level contributes to the checksum: its stripped price, then its stripped quantity. */
  function Line(l: PriceLevel): seq<byte> {
    Strip(l.priceWire) + Strip(l.qtyWire)
  }

  /** The lines of levels, from the first on. */
  function Text(ls: seq<PriceLevel>): seq<byte> {
    if ls == [] then [] else Line(ls[0]) + Text(ls[1..])
  }

  lemma {:induction false} TextSnoc(ls: seq<PriceLevel>, l: PriceLevel)
    ensures Text(ls + [l]) == Text(ls) + Line(l)
    decreases |ls|
  {
    if ls == [] {
      assert ls + [l] == [l] && [l][1..] == [];
      assert Text([l]) == Line(l) + [];
    } else {
      assert (ls + [l])[1..] == ls[1..] + [l];
      TextSnoc(ls[1..], l);
      assert Line(ls[0]) + (Text(ls[1..]) + Line(l)) == Line(ls[0]) + Text(ls[1..]) + Line(l);
    }
  }

  lemma StrippedSnoc(ls: seq<PriceLevel>, l: PriceLevel)
    ensures StrippedBytes(Wires(ls + [l])) == StrippedBytes(Wires(ls)) + Line(l)
  {
    var all := Wires(ls + [l]);
    assert all[..|all| - 1] == Wires(ls) && all[|all| - 1] == WireLevel(l.priceWire, l.qtyWire);
  }

  lemma {:induction false} StrippedIsText(ls: seq<PriceLevel>)
    ensures StrippedBytes(Wires(ls)) == Text(ls)
    decreases |ls|
  {
    if ls != [] {
      var init, last := ls[..|ls| - 1], ls[|ls| - 1];
      assert ls == init + [last];
      StrippedIsText(init);
      TextSnoc(init, last);
      StrippedSnoc(init, last);
    }
  }

  /** The checksum covers the ten lowest asks by rising price, then the ten highest bids by falling price. */
  lemma ChecksumInPrices(bids: Ladder, asks: Ladder)
    requires OwnPrices(Bid, bids) && OwnPrices(Ask, asks)
    ensures exists b, a :: BestFirst(Bid, b, bids, 10) && BestFirst(Ask, a, asks, 10)
                           && SidesChecksum(bids, asks) == Crc32(Text(a) + Text(b))
  {
    var b, a := TopList(bids, 10), TopList(asks, 10);
    ListedInPrices(Bid, bids, 10);
    ListedInPrices(Ask, asks, 10);
    StrippedIsText(b);
    StrippedIsText(a);
  }
}
