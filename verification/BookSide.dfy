/**
 * Feeding price levels to one side of a maintained book, and why a side trimmed to its best
 * `depth` levels still answers for the full side behind it.
 */
module BookSide {
  import opened Util
  import opened PriceLadder
  import opened Checksum

  /** One price level: the decimals and the wire strings they were parsed from. */
  datatype PriceLevel = PriceLevel(price: real, qty: real, priceWire: seq<byte>, qtyWire: seq<byte>)

  datatype SideKind = Bid | Ask

  type Ladder = map<real, PriceLevel>

  /** Asks sort by price, bids by the reversed price, so that the best level comes first. */
  function KeyOf(side: SideKind, level: PriceLevel): real {
    if side == Bid then -level.price else level.price
  }

  /** A delta level deletes when no digit of its wire quantity differs from zero. */
  predicate Deletes(level: PriceLevel) {
    forall i :: 0 <= i < |level.qtyWire| ==> !(49 <= level.qtyWire[i] <= 57)
  }

  function ApplyOne(ladder: Ladder, side: SideKind, level: PriceLevel): Ladder {
    if Deletes(level) then ladder - {KeyOf(side, level)} else ladder[KeyOf(side, level) := level]
  }

  /** The levels of one delta, in order. */
  function Apply(ladder: Ladder, side: SideKind, levels: seq<PriceLevel>): Ladder {
    if levels == [] then ladder
    else ApplyOne(Apply(ladder, side, levels[..|levels| - 1]), side, levels[|levels| - 1])
  }

  /** The levels of a snapshot: nothing is filtered, a repeated price keeps the last level. */
  function Seed(side: SideKind, levels: seq<PriceLevel>): Ladder {
    if levels == [] then map[]
    else Seed(side, levels[..|levels| - 1])[KeyOf(side, levels[|levels| - 1]) := levels[|levels| - 1]]
  }

  // ---------------------------------------------------------------- window exactness

  /** Every level of the delta is true of the side it leads to. */
  ghost predicate TrueOf(side: SideKind, levels: seq<PriceLevel>, next: Ladder) {
    forall i :: 0 <= i < |levels| ==>
      if Deletes(levels[i]) then KeyOf(side, levels[i]) !in next
      else KeyOf(side, levels[i]) in next && next[KeyOf(side, levels[i])] == levels[i]
  }

  ghost predicate Mentions(side: SideKind, levels: seq<PriceLevel>, k: real) {
    exists i :: 0 <= i < |levels| && KeyOf(side, levels[i]) == k
  }

  /** The delta deletes every window level that the new side no longer has. */
  ghost predicate DeletesTheGone(side: SideKind, levels: seq<PriceLevel>, full: Ladder, next: Ladder, depth: nat) {
    forall k :: k in TopKeys(full.Keys, depth) && k !in next ==> Mentions(side, levels, k)
  }

  /** The delta carries every level of the new window that is new to the window or changed. */
  ghost predicate CarriesTheNew(side: SideKind, levels: seq<PriceLevel>, full: Ladder, next: Ladder, depth: nat) {
    forall k :: k in TopKeys(next.Keys, depth) && !(k in TopKeys(full.Keys, depth) && full[k] == next[k])
      ==> Mentions(side, levels, k)
  }

  /** What a truthful delta leaves at one key. */
  lemma {:induction false} ApplyAt(ladder: Ladder, side: SideKind, levels: seq<PriceLevel>, next: Ladder, k: real)
    requires TrueOf(side, levels, next)
    ensures Mentions(side, levels, k) ==>
              (k in Apply(ladder, side, levels) <==> k in next)
              && (k in next ==> Apply(ladder, side, levels)[k] == next[k])
    ensures !Mentions(side, levels, k) ==>
              (k in Apply(ladder, side, levels) <==> k in ladder)
              && (k in ladder ==> Apply(ladder, side, levels)[k] == ladder[k])
    decreases |levels|
  {
    if levels != [] {
      var init, last := levels[..|levels| - 1], levels[|levels| - 1];
      ApplyAt(ladder, side, init, next, k);
      if KeyOf(side, last) != k {
        if Mentions(side, levels, k) {
          var i :| 0 <= i < |levels| && KeyOf(side, levels[i]) == k;
          assert init[i] == levels[i];
        }
        if Mentions(side, init, k) {
          var i :| 0 <= i < |init| && KeyOf(side, init[i]) == k;
          assert levels[i] == init[i];
        }
      }
    }
  }

  /**
   * Window exactness, one delta: with the gone levels deleted, trimming the updated window gives
   * exactly the new side's best `depth` levels if and only if the delta carried what is new.
   */
  lemma WindowExact(full: Ladder, next: Ladder, side: SideKind, levels: seq<PriceLevel>, depth: nat)
    requires TrueOf(side, levels, next)
    requires DeletesTheGone(side, levels, full, next, depth)
    ensures Top(Apply(Top(full, depth), side, levels), depth) == Top(next, depth)
            <==> CarriesTheNew(side, levels, full, next, depth)
  {
    var window := Top(full, depth);
    var updated := Apply(window, side, levels);
    forall k | k in updated
      ensures k in next
    {
      ApplyAt(window, side, levels, next, k);
    }
    if CarriesTheNew(side, levels, full, next, depth) {
      forall k | k in TopKeys(next.Keys, depth)
        ensures k in updated && updated[k] == next[k]
      {
        ApplyAt(window, side, levels, next, k);
      }
      TopOfPart(updated.Keys, next.Keys, depth);
    } else {
      var k :| k in TopKeys(next.Keys, depth) && !(k in TopKeys(full.Keys, depth) && full[k] == next[k])
               && !Mentions(side, levels, k);
      ApplyAt(window, side, levels, next, k);
      assert k in Top(next, depth) && Top(next, depth)[k] == next[k];
      if k in Top(updated, depth) {
        assert Top(updated, depth)[k] == updated[k] == full[k];
      }
    }
  }

  // ---------------------------------------------------------------- runs of deltas

  /** A side that is trimmed after every delta. */
  function TrimmedRun(ladder: Ladder, side: SideKind, deltas: seq<seq<PriceLevel>>, depth: nat): Ladder {
    if deltas == [] then ladder
    else Top(Apply(TrimmedRun(ladder, side, deltas[..|deltas| - 1], depth), side, deltas[|deltas| - 1]), depth)
  }

  /** The same deltas on a side that is never trimmed. */
  function FullRun(ladder: Ladder, side: SideKind, deltas: seq<seq<PriceLevel>>): Ladder {
    if deltas == [] then ladder
    else Apply(FullRun(ladder, side, deltas[..|deltas| - 1]), side, deltas[|deltas| - 1])
  }

  /** A delta the window can follow from one full side to the next. */
  ghost predicate Follows(side: SideKind, levels: seq<PriceLevel>, full: Ladder, next: Ladder, depth: nat) {
    && TrueOf(side, levels, next)
    && DeletesTheGone(side, levels, full, next, depth)
    && CarriesTheNew(side, levels, full, next, depth)
  }

  /** Window exactness over any run: the side stays the best `depth` levels of each full side. */
  lemma {:induction false} WindowExactRun(fulls: seq<Ladder>, side: SideKind, deltas: seq<seq<PriceLevel>>, depth: nat)
    requires |fulls| == |deltas| + 1
    requires forall i :: 0 <= i < |deltas| ==> Follows(side, deltas[i], fulls[i], fulls[i + 1], depth)
    ensures TrimmedRun(Top(fulls[0], depth), side, deltas, depth) == Top(fulls[|deltas|], depth)
    decreases |deltas|
  {
    if deltas != [] {
      var n := |deltas| - 1;
      WindowExactRun(fulls[..n + 1], side, deltas[..n], depth);
      WindowExact(fulls[n], fulls[n + 1], side, deltas[n], depth);
    }
  }

  // ---------------------------------------------------------------- headroom

  /** How many levels of a delta remove a level the trimmed side was holding. */
  function Removals(ladder: Ladder, side: SideKind, levels: seq<PriceLevel>): nat {
    if levels == [] then 0
    else
      var last := levels[|levels| - 1];
      Removals(ladder, side, levels[..|levels| - 1])
      + if Deletes(last) && KeyOf(side, last) in Apply(ladder, side, levels[..|levels| - 1]) then 1 else 0
  }

  function RunRemovals(ladder: Ladder, side: SideKind, deltas: seq<seq<PriceLevel>>, depth: nat): nat {
    if deltas == [] then 0
    else RunRemovals(ladder, side, deltas[..|deltas| - 1], depth)
         + Removals(TrimmedRun(ladder, side, deltas[..|deltas| - 1], depth), side, deltas[|deltas| - 1])
  }

  /** Two sides that agree on their best `n` still do after the same insertion. */
  lemma InsertAgrees(a: Ladder, b: Ladder, k: real, level: PriceLevel, n: nat)
    requires Top(a, n) == Top(b, n)
    ensures Top(a[k := level], n) == Top(b[k := level], n)
  {
    AgreementAt(a, b, n);
    var a', b' := a[k := level], b[k := level];
    assert a'.Keys == a.Keys + {k} && b'.Keys == b.Keys + {k};
    TopAfterAdd(a.Keys, k, n);
    TopAfterAdd(b.Keys, k, n);
    assert TopKeys(a'.Keys, n) <= TopKeys(a.Keys, n) + {k};
  }

  /** After the same deletion they agree one rank less deep, or just as deep if `a` lost nothing. */
  lemma DeleteAgrees(a: Ladder, b: Ladder, k: real, n: nat)
    requires Top(a, n) == Top(b, n)
    ensures n >= 1 ==> Top(a - {k}, n - 1) == Top(b - {k}, n - 1)
    ensures k !in a ==> Top(a - {k}, n) == Top(b - {k}, n)
  {
    AgreementAt(a, b, n);
    var a', b' := a - {k}, b - {k};
    assert a'.Keys == a.Keys - {k} && b'.Keys == b.Keys - {k};
    if n >= 1 {
      TopAfterRemove(a.Keys, k, n);
      TopAfterRemove(b.Keys, k, n);
      assert TopKeys(a'.Keys, n - 1) <= TopKeys(a.Keys, n);
    }
    if k !in a {
      assert a' == a;
      TopOfPart(b'.Keys, b.Keys, n);
    }
  }

  lemma AgreementAt(a: Ladder, b: Ladder, n: nat)
    requires Top(a, n) == Top(b, n)
    ensures TopKeys(a.Keys, n) == TopKeys(b.Keys, n)
    ensures forall x :: x in TopKeys(a.Keys, n) ==> a[x] == b[x]
  {
    assert TopKeys(a.Keys, n) == Top(a, n).Keys == Top(b, n).Keys == TopKeys(b.Keys, n);
    forall x | x in TopKeys(a.Keys, n)
      ensures a[x] == b[x]
    {
      assert Top(a, n)[x] == Top(b, n)[x];
    }
  }

  lemma {:induction false} ApplyAgrees(a: Ladder, b: Ladder, side: SideKind, levels: seq<PriceLevel>, n: nat)
    requires Top(a, n + Removals(a, side, levels)) == Top(b, n + Removals(a, side, levels))
    ensures Top(Apply(a, side, levels), n) == Top(Apply(b, side, levels), n)
    decreases |levels|
  {
    if levels != [] {
      var init, last := levels[..|levels| - 1], levels[|levels| - 1];
      var m := n + Removals(a, side, levels) - Removals(a, side, init);
      ApplyAgrees(a, b, side, init, m);
      var a', b' := Apply(a, side, init), Apply(b, side, init);
      if Deletes(last) {
        DeleteAgrees(a', b', KeyOf(side, last), m);
      } else {
        InsertAgrees(a', b', KeyOf(side, last), last, m);
      }
    }
  }

  lemma TrimAgrees(a: Ladder, b: Ladder, n: nat, depth: nat)
    requires Top(a, n) == Top(b, n) && n <= depth
    ensures Top(Top(a, depth), n) == Top(b, n)
  {
    TopOfTop(a.Keys, n, depth);
    assert Top(a, depth).Keys == TopKeys(a.Keys, depth);
    assert Top(Top(a, depth), n) == Top(a, n);
  }

  lemma HeadroomStep(trimmed: Ladder, full: Ladder, side: SideKind, levels: seq<PriceLevel>, depth: nat, n: nat)
    requires n <= depth
    requires Top(trimmed, n + Removals(trimmed, side, levels)) == Top(full, n + Removals(trimmed, side, levels))
    ensures Top(Top(Apply(trimmed, side, levels), depth), n) == Top(Apply(full, side, levels), n)
  {
    var a, b := Apply(trimmed, side, levels), Apply(full, side, levels);
    assert Top(a, n) == Top(b, n) by { ApplyAgrees(trimmed, full, side, levels, n); }
    TrimAgrees(a, b, n, depth);
  }

  /**
   * Headroom: after deltas that removed at most `depth - n` levels from the trimmed side, its best
   * `n` levels are those of the side that was never trimmed.
   */
  lemma {:induction false} HeadroomRun(seed: Ladder, side: SideKind, deltas: seq<seq<PriceLevel>>, depth: nat, n: nat)
    requires RunRemovals(Top(seed, depth), side, deltas, depth) + n <= depth
    ensures Top(TrimmedRun(Top(seed, depth), side, deltas, depth), n) == Top(FullRun(seed, side, deltas), n)
    decreases |deltas|
  {
    var top := Top(seed, depth);
    if deltas == [] {
      TrimAgrees(seed, seed, n, depth);
    } else {
      var init, last := deltas[..|deltas| - 1], deltas[|deltas| - 1];
      var trimmed, full := TrimmedRun(top, side, init, depth), FullRun(seed, side, init);
      HeadroomRun(seed, side, init, depth, n + Removals(trimmed, side, last));
      HeadroomStep(trimmed, full, side, last, depth, n);
    }
  }

  // ---------------------------------------------------------------- the bound is tight

  /** A deletion of the level at key `k`. */
  function Deletion(side: SideKind, k: real): PriceLevel {
    PriceLevel(if side == Bid then -k else k, 0.0, [], [ZERO])
  }

  /** A delta that deletes the levels at `keys`, in order. */
  function Sweep(side: SideKind, keys: seq<real>): seq<PriceLevel> {
    seq(|keys|, i requires 0 <= i < |keys| => Deletion(side, keys[i]))
  }

  lemma SweepSnoc(ladder: Ladder, side: SideKind, keys: seq<real>)
    requires keys != []
    ensures var before := Apply(ladder, side, Sweep(side, keys[..|keys| - 1]));
            && Apply(ladder, side, Sweep(side, keys)) == before - {keys[|keys| - 1]}
            && Removals(ladder, side, Sweep(side, keys))
               == Removals(ladder, side, Sweep(side, keys[..|keys| - 1])) + if keys[|keys| - 1] in before then 1 else 0
  {
    var sweep, n := Sweep(side, keys), |keys| - 1;
    assert sweep[..n] == Sweep(side, keys[..n]) && sweep[n] == Deletion(side, keys[n]);
    assert Deletes(sweep[n]) && KeyOf(side, sweep[n]) == keys[n];
  }

  function KeySet(keys: seq<real>): set<real> {
    set k | k in keys
  }

  lemma LastOfAscending(keys: seq<real>)
    requires keys != [] && Ascending(keys)
    ensures Ascending(keys[..|keys| - 1]) && keys[|keys| - 1] !in keys[..|keys| - 1]
    ensures KeySet(keys) == KeySet(keys[..|keys| - 1]) + {keys[|keys| - 1]}
  {
    assert keys == keys[..|keys| - 1] + [keys[|keys| - 1]];
  }

  lemma MinusOneMore(ladder: Ladder, gone: set<real>, k: real)
    ensures ladder - gone - {k} == ladder - (gone + {k})
  {
  }

  /** Sweeping distinct levels a side has removes each of them. */
  lemma {:induction false} SweepRemoves(ladder: Ladder, side: SideKind, keys: seq<real>)
    requires Ascending(keys) && KeySet(keys) <= ladder.Keys
    ensures Apply(ladder, side, Sweep(side, keys)) == ladder - KeySet(keys)
    ensures Removals(ladder, side, Sweep(side, keys)) == |keys|
    decreases |keys|
  {
    if keys == [] {
      assert ladder - KeySet(keys) == ladder;
    } else {
      var init, last := keys[..|keys| - 1], keys[|keys| - 1];
      LastOfAscending(keys);
      SweepRemoves(ladder, side, init);
      SweepSnoc(ladder, side, keys);
      assert last in ladder - KeySet(init);
      MinusOneMore(ladder, KeySet(init), last);
    }
  }

  /** A sweep of the best `m` levels of a window, on the window and on the side behind it. */
  lemma WindowSweep(seed: Ladder, side: SideKind, depth: nat, m: nat) returns (delta: seq<PriceLevel>)
    requires m <= depth < |seed|
    ensures var window := Top(seed, depth);
            && Removals(window, side, delta) == m
            && |Apply(window, side, delta)| == depth - m && |Apply(seed, side, delta)| == |seed| - m
  {
    var window := Top(seed, depth);
    assert |seed.Keys| == |seed|;
    TopSize(seed.Keys, depth);
    assert window.Keys == TopKeys(seed.Keys, depth) && |window.Keys| == |window|;
    TopSize(window.Keys, m);
    var gone := TopKeys(window.Keys, m);
    var keys := Listing(gone);
    ListingLength(keys, gone);
    assert KeySet(keys) == gone;
    delta := Sweep(side, keys);
    SweepRemoves(window, side, keys);
    SweepRemoves(seed, side, keys);
    SweptSize(window, gone);
    SweptSize(seed, gone);
  }

  lemma SweptSize(ladder: Ladder, keys: set<real>)
    requires keys <= ladder.Keys
    ensures |ladder - keys| == |ladder| - |keys|
  {
    assert (ladder - keys).Keys == ladder.Keys - keys;
    assert |ladder.Keys| == |ladder| && |(ladder - keys).Keys| == |ladder - keys|;
  }

  /** On any side deeper than the window, one removal more than `depth - n` can show: the best `n` differ. */
  lemma HeadroomIsTight(seed: Ladder, side: SideKind, depth: nat, n: nat)
    requires 1 <= n <= depth < |seed|
    ensures exists delta: seq<PriceLevel> ::
              && RunRemovals(Top(seed, depth), side, [delta], depth) == depth - n + 1
              && Top(TrimmedRun(Top(seed, depth), side, [delta], depth), n) != Top(FullRun(seed, side, [delta]), n)
  {
    var window := Top(seed, depth);
    var delta := WindowSweep(seed, side, depth, depth - n + 1);
    OneDelta(window, seed, side, delta, depth);
    TopSizesDiffer(Apply(window, side, delta), Apply(seed, side, delta), depth, n);
  }

  lemma OneDelta(window: Ladder, seed: Ladder, side: SideKind, delta: seq<PriceLevel>, depth: nat)
    ensures RunRemovals(window, side, [delta], depth) == Removals(window, side, delta)
    ensures TrimmedRun(window, side, [delta], depth) == Top(Apply(window, side, delta), depth)
    ensures FullRun(seed, side, [delta]) == Apply(seed, side, delta)
  {
    assert [delta][..0] == [];
    assert RunRemovals(window, side, [], depth) == 0;
    assert TrimmedRun(window, side, [], depth) == window;
  }

  lemma TopSizesDiffer(trimmed: Ladder, full: Ladder, depth: nat, n: nat)
    requires |trimmed| < n <= |full| && n <= depth
    ensures Top(Top(trimmed, depth), n) != Top(full, n)
  {
    TopOfShallow(trimmed.Keys, depth);
    assert Top(trimmed, depth) == trimmed;
    TopOfShallow(trimmed.Keys, n);
    TopSize(full.Keys, n);
    assert Top(full, n).Keys == TopKeys(full.Keys, n);
    assert Top(trimmed, n).Keys == trimmed.Keys;
    assert |trimmed.Keys| == |trimmed| && |full.Keys| == |full|;
  }
}
