/**
 * One total order on subscription keys, and what listing entries in it guarantees: a listing that does not
 * depend on how the maps are iterated, as long as no two keys look alike to the order.
 */
module ReplayOrder {
  import opened Util
  import opened Registry

  function WireName(channel: Channel): string {
    match channel
    case Ticker => "ticker"
    case Book => "book"
    case BookRaw => "book"
    case Trade => "trade"
    case Ohlc => "ohlc"
    case Status => "status"
    case Executions => "executions"
    case Balances => "balances"
    case Heartbeat => "heartbeat"
  }

  /** The channel of a wire name; unknown names have none. */
  function FromWire(name: string): Option<Channel> {
    if name == "ticker" then Some(Ticker)
    else if name == "book" then Some(Book)
    else if name == "trade" then Some(Trade)
    else if name == "ohlc" then Some(Ohlc)
    else if name == "status" then Some(Status)
    else if name == "executions" then Some(Executions)
    else if name == "balances" then Some(Balances)
    else if name == "heartbeat" then Some(Heartbeat)
    else None
  }

  /** A wire name is read back as its channel, but that the raw book's is the book's. */
  lemma WireNameReadBack(channel: Channel)
    ensures FromWire(WireName(channel)) == Some(if channel == BookRaw then Book else channel)
  {
    assert |WireName(Ticker)| == 6 && |WireName(Status)| == 6 && WireName(Ticker)[0] != WireName(Status)[0];
  }

  datatype OrderKey = OrderKey(isPair: bool, wire: string, symbol: Option<string>)

  function OrderOf(k: Key): OrderKey {
    OrderKey(k.pair.Some?, WireName(k.channel), k.pair)
  }

  predicate StrLess(a: string, b: string) {
    b != "" && (a == "" || a[0] < b[0] || (a[0] == b[0] && StrLess(a[1..], b[1..])))
  }

  predicate SymbolLess(a: Option<string>, b: Option<string>) {
    b.Some? && (a.None? || StrLess(a.value, b.value))
  }

  /** Field by field, as tuples compare; no pair before any pair. */
  predicate Less(a: OrderKey, b: OrderKey) {
    if a.isPair != b.isPair then b.isPair
    else if a.wire != b.wire then StrLess(a.wire, b.wire)
    else SymbolLess(a.symbol, b.symbol)
  }

  // ---------------------------------------------------------------- it is a strict total order

  lemma {:induction false} StrTrichotomy(a: string, b: string)
    ensures StrLess(a, b) || StrLess(b, a) || a == b
    ensures StrLess(a, b) ==> !StrLess(b, a) && a != b
  {
    if a != "" && b != "" {
      StrTrichotomy(a[1..], b[1..]);
      assert a[0] == b[0] && a[1..] == b[1..] ==> a == b by {
        assert a == [a[0]] + a[1..] && b == [b[0]] + b[1..];
      }
    }
  }

  lemma {:induction false} StrTransitive(a: string, b: string, c: string)
    requires StrLess(a, b) && StrLess(b, c)
    ensures StrLess(a, c)
  {
    if a != "" && a[0] == b[0] && b[0] == c[0] {
      StrTransitive(a[1..], b[1..], c[1..]);
    }
  }

  lemma LessTrichotomy(a: OrderKey, b: OrderKey)
    ensures Less(a, b) || Less(b, a) || a == b
    ensures Less(a, b) ==> !Less(b, a) && a != b
  {
    StrTrichotomy(a.wire, b.wire);
    if a.symbol.Some? && b.symbol.Some? { StrTrichotomy(a.symbol.value, b.symbol.value); }
  }

  lemma LessTransitive(a: OrderKey, b: OrderKey, c: OrderKey)
    requires Less(a, b) && Less(b, c)
    ensures Less(a, c)
  {
    if a.wire != b.wire && b.wire != c.wire && StrLess(a.wire, b.wire) && StrLess(b.wire, c.wire) {
      StrTransitive(a.wire, b.wire, c.wire);
      StrTrichotomy(a.wire, c.wire);
    }
    if a.symbol.Some? && b.symbol.Some? && c.symbol.Some?
       && StrLess(a.symbol.value, b.symbol.value) && StrLess(b.symbol.value, c.symbol.value) {
      StrTransitive(a.symbol.value, b.symbol.value, c.symbol.value);
    }
  }

  /** The two book channels of one pair, or channel-wide: the keys that share a wire name. */
  predicate BookAndRaw(a: Key, b: Key) {
    a.pair == b.pair && ((a.channel == Book && b.channel == BookRaw) || (a.channel == BookRaw && b.channel == Book))
  }

  /** The order tells every two keys apart but those. */
  lemma OrderTellsApart(a: Key, b: Key)
    ensures OrderOf(a) == OrderOf(b) <==> a == b || BookAndRaw(a, b)
  {
    if OrderOf(a) == OrderOf(b) {
      assert WireName(a.channel)[..2] == WireName(b.channel)[..2];
      assert |WireName(a.channel)| == |WireName(b.channel)|;
    }
  }

  // ---------------------------------------------------------------- the order, told on keys

  /** `a` and `b` agree up to position `n`, where `a` has the smaller letter or ends. */
  ghost predicate LowerAt(a: string, b: string, n: nat) {
    n <= |a| && n < |b| && (forall i :: 0 <= i < n ==> a[i] == b[i]) && (n == |a| || a[n] < b[n])
  }

  /** `a` comes before `b` in a dictionary. */
  ghost predicate Dictionary(a: string, b: string) {
    exists n: nat :: LowerAt(a, b, n)
  }

  lemma LowerInTails(a: string, b: string, n: nat)
    requires a != "" && b != "" && a[0] == b[0]
    ensures LowerAt(a[1..], b[1..], n) <==> LowerAt(a, b, n + 1)
  {
    if LowerAt(a[1..], b[1..], n) {
      forall i | 0 <= i < n + 1 ensures a[i] == b[i] {
        if i > 0 { assert a[1..][i - 1] == b[1..][i - 1]; }
      }
    }
  }

  lemma {:induction false} StrLessIsDictionary(a: string, b: string)
    ensures StrLess(a, b) <==> Dictionary(a, b)
  {
    if a == "" || b == "" || a[0] != b[0] {
      assert StrLess(a, b) <==> LowerAt(a, b, 0);
    } else {
      StrLessIsDictionary(a[1..], b[1..]);
      if Dictionary(a[1..], b[1..]) {
        var n: nat :| LowerAt(a[1..], b[1..], n);
        LowerInTails(a, b, n);
      }
      if Dictionary(a, b) {
        var n: nat :| LowerAt(a, b, n);
        assert n > 0;
        LowerInTails(a, b, n - 1);
      }
    }
  }

  /** The wire names of the channels in dictionary order; the two book channels share one. */
  function Rank(channel: Channel): nat {
    match channel
    case Balances => 0
    case Book => 1
    case BookRaw => 1
    case Executions => 2
    case Heartbeat => 3
    case Ohlc => 4
    case Status => 5
    case Ticker => 6
    case Trade => 7
  }

  lemma WireNamesRank(a: Channel, b: Channel)
    ensures StrLess(WireName(a), WireName(b)) <==> Rank(a) < Rank(b)
    ensures WireName(a) == WireName(b) <==> Rank(a) == Rank(b)
  {
    StrTrichotomy(WireName(a), WireName(b));
    if Rank(a) < Rank(b) { RanksAscend(a, b); }
    if Rank(b) < Rank(a) { RanksAscend(b, a); }
  }

  lemma RanksAscend(a: Channel, b: Channel)
    requires Rank(a) < Rank(b)
    ensures StrLess(WireName(a), WireName(b))
  {
    var x, y := WireName(a), WireName(b);
    if x[0] == y[0] {
      assert (a == Balances && WireName(b) == "book") || (a == Ticker && b == Trade);
      assert x[1..][0] == x[1] && y[1..][0] == y[1] && x[1] < y[1];
    }
  }

  /**
   * The replay order on keys: channel-wide keys before pairs, then by wire name, then by symbol in
   * dictionary order.
   */
  lemma OrderOnKeys(a: Key, b: Key)
    ensures Less(OrderOf(a), OrderOf(b)) <==>
              (a.pair.None? && b.pair.Some?)
              || (a.pair.Some? == b.pair.Some? && Rank(a.channel) < Rank(b.channel))
              || (a.pair.Some? && b.pair.Some? && Rank(a.channel) == Rank(b.channel) && Dictionary(a.pair.value, b.pair.value))
  {
    WireNamesRank(a.channel, b.channel);
    if a.pair.Some? && b.pair.Some? { StrLessIsDictionary(a.pair.value, b.pair.value); }
  }

  /** So in every listing: no pair before a channel-wide key, and within each the names and symbols ascend. */
  lemma ListingsAscend(es: seq<Entry>, i: nat, j: nat)
    requires Ordered(es) && i < j < |es|
    ensures var a, b := es[i].key, es[j].key;
            && (b.pair.None? ==> a.pair.None?)
            && (a.pair.Some? == b.pair.Some? ==> Rank(a.channel) <= Rank(b.channel))
            && (a.pair.Some? && b.pair.Some? && Rank(a.channel) == Rank(b.channel) ==>
                  a.pair == b.pair || Dictionary(a.pair.value, b.pair.value))
  {
    var a, b := es[i].key, es[j].key;
    OrderOnKeys(b, a);
    if a.pair.Some? && b.pair.Some? {
      StrTrichotomy(a.pair.value, b.pair.value);
      StrLessIsDictionary(a.pair.value, b.pair.value);
      StrLessIsDictionary(b.pair.value, a.pair.value);
    }
  }

  // ---------------------------------------------------------------- listings

  ghost predicate Distinct(es: seq<Entry>) {
    forall i, j :: 0 <= i < j < |es| ==> es[i].key != es[j].key
  }

  ghost predicate Ordered(es: seq<Entry>) {
    forall i, j :: 0 <= i < j < |es| ==> !Less(OrderOf(es[j].key), OrderOf(es[i].key))
  }

  /** `es` has every entry of `m` exactly once, and nothing else. */
  ghost predicate Lists(es: seq<Entry>, m: map<Key, Entry>) {
    && Distinct(es)
    && (forall e :: e in es ==> e.key in m && m[e.key] == e)
    && (forall k :: k in m ==> m[k] in es)
  }

  ghost predicate IsListing(es: seq<Entry>, m: map<Key, Entry>) {
    Ordered(es) && Lists(es, m)
  }

  ghost predicate Untied(m: map<Key, Entry>) {
    forall a, b :: a in m && b in m && OrderOf(a) == OrderOf(b) ==> a == b
  }

  /** The live entries that route to `url`. */
  function LiveEntries(s: Reg, url: WsUrl): map<Key, Entry> {
    map k | k in s.entries && LiveOn(s.entries[k], url) :: s.entries[k]
  }

  predicate LiveOn(e: Entry, url: WsUrl) {
    e.url == url && !IsTombstone(e)
  }

  /** An entry of `m` that no other comes before. */
  ghost predicate Leads(e: Entry, m: map<Key, Entry>) {
    e.key in m && m[e.key] == e && forall k :: k in m ==> !Less(OrderOf(k), OrderOf(e.key))
  }

  lemma HeadLeads(es: seq<Entry>, m: map<Key, Entry>)
    requires IsListing(es, m) && (forall k :: k in m ==> m[k].key == k)
    ensures es == [] <==> m == map[]
    ensures es != [] ==> Leads(es[0], m) && IsListing(es[1..], m - {es[0].key})
  {
    if es != [] {
      assert es[0] in es;
      forall k | k in m ensures !Less(OrderOf(k), OrderOf(es[0].key)) {
        var i :| 0 <= i < |es| && es[i] == m[k];
        LessTrichotomy(OrderOf(k), OrderOf(k));
      }
      forall k | k in m - {es[0].key} ensures m[k] in es[1..] {
        var i :| 0 <= i < |es| && es[i] == m[k];
        assert es[1..][i - 1] == m[k];
      }
      forall e | e in es[1..] ensures e.key in m - {es[0].key} && m[e.key] == e {
        assert e in es;
      }
    } else {
      assert forall k :: k !in m;
    }
  }

  lemma LeaderIsUnique(a: Entry, b: Entry, m: map<Key, Entry>)
    requires Untied(m) && Leads(a, m) && Leads(b, m)
    ensures a == b
  {
    LessTrichotomy(OrderOf(a.key), OrderOf(b.key));
  }

  /** Two listings begin alike, and go on to list the same remainder. */
  lemma ListingsBeginAlike(a: seq<Entry>, b: seq<Entry>, m: map<Key, Entry>)
    requires IsListing(a, m) && IsListing(b, m) && Untied(m) && (forall k :: k in m ==> m[k].key == k)
    ensures a == [] <==> b == []
    ensures a != [] ==> a[0] == b[0] && IsListing(a[1..], m - {a[0].key}) && IsListing(b[1..], m - {a[0].key})
    ensures a != [] ==> Untied(m - {a[0].key})
  {
    HeadLeads(a, m);
    HeadLeads(b, m);
    if a != [] { LeaderIsUnique(a[0], b[0], m); }
  }

  /** However the maps were iterated, there is one listing. */
  lemma {:induction false} ListingIsUnique(a: seq<Entry>, b: seq<Entry>, m: map<Key, Entry>)
    requires IsListing(a, m) && IsListing(b, m) && Untied(m) && (forall k :: k in m ==> m[k].key == k)
    ensures a == b
  {
    ListingsBeginAlike(a, b, m);
    if a != [] {
      ListingIsUnique(a[1..], b[1..], m - {a[0].key});
      assert a == [a[0]] + a[1..] && b == [b[0]] + b[1..];
    }
  }

  lemma OnceEach(a: seq<Entry>, x: nat)
    requires Distinct(a) && x < |a|
    ensures multiset(a)[a[x]] == 1
  {
    assert a == a[..x] + [a[x]] + a[x + 1..];
    assert a[x] !in a[..x] && a[x] !in a[x + 1..];
  }

  lemma TwiceIsMore(b: seq<Entry>, i: nat, j: nat)
    requires i < j < |b| && b[i] == b[j]
    ensures multiset(b)[b[i]] >= 2
  {
    assert b == b[..j] + [b[j]] + b[j + 1..];
    assert b[..j][i] == b[i];
    assert b[i] in multiset(b[..j]);
  }

  /** Reordering a list of entries keeps what it lists. */
  lemma PermutedLists(a: seq<Entry>, b: seq<Entry>, m: map<Key, Entry>)
    requires Lists(a, m) && multiset(b) == multiset(a)
    ensures Lists(b, m)
  {
    forall e ensures e in b <==> e in a {
      assert e in multiset(b) <==> e in multiset(a);
    }
    forall i, j | 0 <= i < j < |b| ensures b[i].key != b[j].key {
      if b[i].key == b[j].key {
        assert b[i] in a && b[j] in a;
        TwiceIsMore(b, i, j);
        var x :| 0 <= x < |a| && a[x] == b[i];
        OnceEach(a, x);
      }
    }
  }

  /** A run that stores one pair under both book channels leaves two live keys the order cannot tell apart. */
  lemma BookAndRawTie(url: WsUrl, symbol: string, params: Params, now: real)
    ensures var a, b := Key(Book, Some(symbol)), Key(BookRaw, Some(symbol));
            exists ops :: a in LiveEntries(Run(ops), url) && b in LiveEntries(Run(ops), url)
                          && a != b && OrderOf(a) == OrderOf(b) && !Untied(LiveEntries(Run(ops), url))
  {
    var a, b := Key(Book, Some(symbol)), Key(BookRaw, Some(symbol));
    var first, second := RegisterBare(url, a, params, now), RegisterBare(url, b, params, now);
    var ops := [first, second];
    assert ops[..1] == [first] && [first][..0] == [];
    assert Run([]) == EMPTY;
    assert Run([first]) == Step(EMPTY, first);
    assert Run(ops) == Step(Step(EMPTY, first), second);
    assert a in LiveEntries(Run(ops), url) && b in LiveEntries(Run(ops), url);
  }

  function Swapped(a: seq<Entry>, i: nat, j: nat): seq<Entry>
    requires i < j < |a|
  {
    a[i := a[j]][j := a[i]]
  }

  predicate Brings(op: Op, k: Key) {
    (op.RegisterBare? && op.key == k) || (op.RegisterGuard? && op.guard.key == k)
  }

  /** Only a register brings a key in. */
  lemma KeysComeFromRegisters(s: Reg, op: Op, k: Key)
    ensures k in Step(s, op).entries ==> k in s.entries || Brings(op, k)
  {
  }

  /** What callers do: they store wire channels only. */
  ghost predicate WireOnly(ops: seq<Op>) {
    forall op, k :: op in ops && Brings(op, k) ==> k.channel != BookRaw
  }

  lemma {:induction false} WireRunsHoldWireKeys(ops: seq<Op>, k: Key)
    requires WireOnly(ops)
    ensures k in Run(ops).entries ==> k.channel != BookRaw
  {
    if ops != [] {
      var op := ops[|ops| - 1];
      assert op in ops;
      WireRunsHoldWireKeys(ops[..|ops| - 1], k);
      KeysComeFromRegisters(Run(ops[..|ops| - 1]), op, k);
    }
  }

  /** Callers store wire channels only: then no run has two keys the order cannot tell apart. */
  lemma WireRunsAreUntied(ops: seq<Op>, url: WsUrl)
    requires WireOnly(ops)
    ensures Untied(LiveEntries(Run(ops), url))
  {
    var m := LiveEntries(Run(ops), url);
    forall a, b | a in m && b in m && OrderOf(a) == OrderOf(b) ensures a == b {
      WireRunsHoldWireKeys(ops, a);
      WireRunsHoldWireKeys(ops, b);
      OrderTellsApart(a, b);
    }
  }

  lemma SwapKeepsOrder(a: seq<Entry>, i: nat, j: nat)
    requires Ordered(a) && i < j < |a| && OrderOf(a[i].key) == OrderOf(a[j].key)
    ensures Ordered(Swapped(a, i, j))
  {
    var b := Swapped(a, i, j);
    assert forall n :: 0 <= n < |a| ==> OrderOf(b[n].key) == OrderOf(a[n].key);
    forall m, n | 0 <= m < n < |b| ensures !Less(OrderOf(b[n].key), OrderOf(b[m].key)) {
      assert !Less(OrderOf(a[n].key), OrderOf(a[m].key));
    }
  }

  /** Two entries of one order key may be listed either way round. */
  lemma TiesSwap(a: seq<Entry>, m: map<Key, Entry>, i: nat, j: nat)
    requires IsListing(a, m) && i < j < |a| && OrderOf(a[i].key) == OrderOf(a[j].key)
    ensures IsListing(Swapped(a, i, j), m) && Swapped(a, i, j) != a
  {
    var b := Swapped(a, i, j);
    assert multiset(b) == multiset(a);
    PermutedLists(a, b, m);
    SwapKeepsOrder(a, i, j);
    assert b[i] == a[j];
  }

  /** The replay order depends on nothing else exactly when no two live keys share an order key. */
  lemma DeterminedIffUntied(a: seq<Entry>, m: map<Key, Entry>)
    requires IsListing(a, m) && (forall k :: k in m ==> m[k].key == k)
    ensures Untied(m) <==> forall b :: IsListing(b, m) ==> b == a
  {
    if Untied(m) {
      forall b | IsListing(b, m) ensures b == a { ListingIsUnique(a, b, m); }
    } else {
      var x, y :| x in m && y in m && OrderOf(x) == OrderOf(y) && x != y;
      var i :| 0 <= i < |a| && a[i] == m[x];
      var j :| 0 <= j < |a| && a[j] == m[y];
      var first, second := if i < j then i else j, if i < j then j else i;
      TiesSwap(a, m, first, second);
    }
  }

  /** An entry that nothing precedes, then a listing of the others, is a listing of all. */
  lemma LeaderThenRest(first: Entry, rest: seq<Entry>, m: map<Key, Entry>)
    requires Leads(first, m) && IsListing(rest, m - {first.key})
    ensures IsListing([first] + rest, m)
  {
    var all := [first] + rest;
    assert forall i :: 0 <= i < |rest| ==> rest[i] in rest;
    forall k | k in m ensures m[k] in all {
      if k != first.key {
        assert k in m - {first.key};
        assert (m - {first.key})[k] in rest;
      }
    }
    assert Ordered(all) by { OrderedAfterLeader(first, rest, m); }
  }

  lemma OrderedAfterLeader(first: Entry, rest: seq<Entry>, m: map<Key, Entry>)
    requires Leads(first, m) && IsListing(rest, m - {first.key})
    ensures Ordered([first] + rest)
  {
    forall i | 0 <= i < |rest| ensures !Less(OrderOf(rest[i].key), OrderOf(first.key)) {
      assert rest[i] in rest;
    }
  }

  // ---------------------------------------------------------------- filtering and sorting

  /** The entries of a list that `p` accepts, in the same order. */
  function Filtered(es: seq<Entry>, p: Entry -> bool): seq<Entry> {
    if es == [] then []
    else
      var n := |es| - 1;
      Filtered(es[..n], p) + if p(es[n]) then [es[n]] else []
  }

  function Accepted(m: map<Key, Entry>, p: Entry -> bool): map<Key, Entry> {
    map k | k in m && p(m[k]) :: m[k]
  }

  lemma {:induction false} FilteredMembers(es: seq<Entry>, p: Entry -> bool)
    ensures forall e :: e in Filtered(es, p) <==> e in es && p(e)
  {
    if es != [] {
      var n := |es| - 1;
      FilteredMembers(es[..n], p);
      assert es == es[..n] + [es[n]];
    }
  }

  /** What holds between every entry and every later one still does after filtering. */
  lemma {:induction false} FilteredKeepsRelation(es: seq<Entry>, p: Entry -> bool, r: (Entry, Entry) -> bool)
    requires forall x, y :: 0 <= x < y < |es| ==> r(es[x], es[y])
    ensures forall x, y :: 0 <= x < y < |Filtered(es, p)| ==> r(Filtered(es, p)[x], Filtered(es, p)[y])
  {
    if es != [] {
      var n := |es| - 1;
      var kept := Filtered(es[..n], p);
      FilteredKeepsRelation(es[..n], p, r);
      FilteredMembers(es[..n], p);
      forall x | 0 <= x < |kept| ensures r(kept[x], es[n]) {
        assert kept[x] in es[..n];
      }
    }
  }

  /** Filtering a listing lists what the filter accepts. */
  lemma FilteredLists(es: seq<Entry>, m: map<Key, Entry>, p: Entry -> bool)
    requires Lists(es, m)
    ensures Lists(Filtered(es, p), Accepted(m, p))
    ensures Ordered(es) ==> Ordered(Filtered(es, p))
  {
    FilteredMembers(es, p);
    FilteredKeepsRelation(es, p, (a: Entry, b: Entry) => a.key != b.key);
    if Ordered(es) {
      FilteredKeepsRelation(es, p, (a: Entry, b: Entry) => !Less(OrderOf(b.key), OrderOf(a.key)));
    }
  }

  method Filter(es: seq<Entry>, p: Entry -> bool) returns (kept: seq<Entry>)
    ensures kept == Filtered(es, p)
  {
    kept := [];
    for i := 0 to |es|
      invariant kept == Filtered(es[..i], p)
    {
      assert es[..i + 1][..i] == es[..i];
      if p(es[i]) { kept := kept + [es[i]]; }
    }
    assert es[..|es|] == es;
  }

  function Inserted(es: seq<Entry>, i: nat, e: Entry): seq<Entry>
    requires i <= |es|
  {
    es[..i] + [e] + es[i..]
  }

  lemma InsertedKeepsRelation(es: seq<Entry>, i: nat, e: Entry, r: (Entry, Entry) -> bool)
    requires i <= |es| && forall x, y :: 0 <= x < y < |es| ==> r(es[x], es[y])
    requires forall x :: 0 <= x < i ==> r(es[x], e)
    requires forall y :: i <= y < |es| ==> r(e, es[y])
    ensures forall x, y :: 0 <= x < y <= |es| ==> r(Inserted(es, i, e)[x], Inserted(es, i, e)[y])
  {
  }

  /** Everything up to an entry that does not come after `e` does not come after `e`. */
  lemma NotAfterBelow(es: seq<Entry>, i: nat, e: Entry)
    requires Ordered(es) && i < |es| && !Less(OrderOf(e.key), OrderOf(es[i].key))
    ensures forall j :: 0 <= j <= i ==> !Less(OrderOf(e.key), OrderOf(es[j].key))
  {
    forall j | 0 <= j < i ensures !Less(OrderOf(e.key), OrderOf(es[j].key)) {
      if Less(OrderOf(e.key), OrderOf(es[j].key)) {
        LessTrichotomy(OrderOf(es[j].key), OrderOf(es[i].key));
        if Less(OrderOf(es[j].key), OrderOf(es[i].key)) {
          LessTransitive(OrderOf(e.key), OrderOf(es[j].key), OrderOf(es[i].key));
        }
      }
    }
  }

  lemma InsertedIsOrdered(es: seq<Entry>, i: nat, e: Entry)
    requires Ordered(es) && i <= |es|
    requires forall j :: i <= j < |es| ==> Less(OrderOf(e.key), OrderOf(es[j].key))
    requires i > 0 ==> !Less(OrderOf(e.key), OrderOf(es[i - 1].key))
    ensures Ordered(Inserted(es, i, e))
  {
    if i > 0 { NotAfterBelow(es, i - 1, e); }
    forall j | i <= j < |es| ensures !Less(OrderOf(es[j].key), OrderOf(e.key)) {
      LessTrichotomy(OrderOf(e.key), OrderOf(es[j].key));
    }
    InsertedKeepsRelation(es, i, e, (a: Entry, b: Entry) => !Less(OrderOf(b.key), OrderOf(a.key)));
  }

  /** The entries of one order key, in the order they are listed. */
  function TiedAt(es: seq<Entry>, o: OrderKey): seq<Entry> {
    Filtered(es, (e: Entry) => OrderOf(e.key) == o)
  }

  /** The two lists have the same entries at every order key, in the same order. */
  ghost predicate SameTies(a: seq<Entry>, b: seq<Entry>) {
    forall o: OrderKey :: TiedAt(a, o) == TiedAt(b, o)
  }

  lemma {:induction false} FilteredConcat(a: seq<Entry>, b: seq<Entry>, p: Entry -> bool)
    ensures Filtered(a + b, p) == Filtered(a, p) + Filtered(b, p)
    decreases |b|
  {
    if b == [] {
      assert a + b == a;
    } else {
      assert (a + b)[..|a + b| - 1] == a + b[..|b| - 1];
      FilteredConcat(a, b[..|b| - 1], p);
    }
  }

  lemma TiedConcat(a: seq<Entry>, b: seq<Entry>, o: OrderKey)
    ensures TiedAt(a + b, o) == TiedAt(a, o) + TiedAt(b, o)
  {
    FilteredConcat(a, b, (e: Entry) => OrderOf(e.key) == o);
  }

  lemma NoTiesAfter(es: seq<Entry>, e: Entry)
    requires forall j :: 0 <= j < |es| ==> Less(OrderOf(e.key), OrderOf(es[j].key))
    ensures TiedAt(es, OrderOf(e.key)) == []
  {
    var tied := TiedAt(es, OrderOf(e.key));
    FilteredMembers(es, (x: Entry) => OrderOf(x.key) == OrderOf(e.key));
    if tied != [] {
      assert tied[0] in tied;
      LessTrichotomy(OrderOf(e.key), OrderOf(tied[0].key));
      assert false;
    }
  }

  /** An entry put before later ones only ties like one put last. */
  lemma InsertedTies(es: seq<Entry>, i: nat, e: Entry, o: OrderKey)
    requires i <= |es| && forall j :: i <= j < |es| ==> Less(OrderOf(e.key), OrderOf(es[j].key))
    ensures TiedAt(Inserted(es, i, e), o) == TiedAt(es, o) + TiedAt([e], o)
  {
    var front, back := es[..i], es[i..];
    assert es == front + back;
    TiedConcat(front, back, o);
    TiedConcat(front + [e], back, o);
    TiedConcat(front, [e], o);
    if OrderOf(e.key) == o { NoTiesAfter(back, e); }
  }

  /** Where `e` goes: after everything it does not come before. */
  method PlaceFor(es: seq<Entry>, e: Entry) returns (i: nat)
    ensures i <= |es| && (i > 0 ==> !Less(OrderOf(e.key), OrderOf(es[i - 1].key)))
    ensures forall j :: i <= j < |es| ==> Less(OrderOf(e.key), OrderOf(es[j].key))
  {
    i := |es|;
    while i > 0 && Less(OrderOf(e.key), OrderOf(es[i - 1].key))
      invariant i <= |es|
      invariant forall j :: i <= j < |es| ==> Less(OrderOf(e.key), OrderOf(es[j].key))
    {
      i := i - 1;
    }
  }

  lemma InsertedAdds(es: seq<Entry>, i: nat, e: Entry)
    requires i <= |es|
    ensures multiset(Inserted(es, i, e)) == multiset(es) + multiset{e}
  {
    assert es == es[..i] + es[i..];
  }

  lemma SortStep(sorted: seq<Entry>, done: seq<Entry>, i: nat, e: Entry)
    requires SameTies(sorted, done) && i <= |sorted|
    requires forall j :: i <= j < |sorted| ==> Less(OrderOf(e.key), OrderOf(sorted[j].key))
    ensures SameTies(Inserted(sorted, i, e), done + [e])
  {
    forall o: OrderKey ensures TiedAt(Inserted(sorted, i, e), o) == TiedAt(done + [e], o) {
      InsertedTies(sorted, i, e, o);
      TiedConcat(done, [e], o);
    }
  }

  /** Sorts by order key; entries of one order key stay in the order they came in. */
  method SortByOrder(es: seq<Entry>) returns (sorted: seq<Entry>)
    ensures multiset(sorted) == multiset(es) && Ordered(sorted) && SameTies(sorted, es)
  {
    sorted := [];
    for n := 0 to |es|
      invariant Ordered(sorted) && multiset(sorted) == multiset(es[..n]) && SameTies(sorted, es[..n])
    {
      assert es[..n + 1] == es[..n] + [es[n]];
      var i := PlaceFor(sorted, es[n]);
      InsertedIsOrdered(sorted, i, es[n]);
      InsertedAdds(sorted, i, es[n]);
      SortStep(sorted, es[..n], i, es[n]);
      sorted := Inserted(sorted, i, es[n]);
    }
    assert es[..|es|] == es;
  }
}
