/**
 * The registry as the reactor owns it: per-pair entries nested by channel, channel-wide entries beside
 * them, and every method updating its fields in place.  Each is proved against the registry's value.
 */
module RegistryStore {
  import opened Util
  import opened Registry
  import opened ReplayOrder

  type PairEntries = map<Channel, map<string, Entry>>
  type WideEntries = map<Channel, Entry>

  datatype RemovedKind = LiveRemoved | TombstoneRemoved

  /** A subscribe frame before it is rendered: the key and the options it is rebuilt from. */
  datatype Frame = Frame(key: Key, params: Params)

  function FrameOf(e: Entry): Frame {
    Frame(e.key, e.params)
  }

  function FramesOf(es: seq<Entry>): seq<Frame> {
    seq(|es|, i requires 0 <= i < |es| => FrameOf(es[i]))
  }

  /** The frames of `m` in replay order. */
  ghost predicate IsBatch(frames: seq<Frame>, m: map<Key, Entry>) {
    exists es :: IsListing(es, m) && frames == FramesOf(es)
  }

  /** The frame of an entry of `m` that no other comes before; none when `m` is empty. */
  ghost predicate IsFirst(first: Option<Frame>, m: map<Key, Entry>) {
    if first.None? then m == map[] else exists head :: Leads(head, m) && first.value == FrameOf(head)
  }

  function Held(pairs: PairEntries, wide: WideEntries, k: Key): Option<Entry> {
    match k.pair
    case Some(symbol) =>
      if k.channel in pairs && symbol in pairs[k.channel] then Some(pairs[k.channel][symbol]) else None
    case None => if k.channel in wide then Some(wide[k.channel]) else None
  }

  /** The nested maps hold `m`, every entry under its own key, and no per-channel map is empty. */
  ghost predicate Flattens(pairs: PairEntries, wide: WideEntries, m: map<Key, Entry>) {
    && (forall k :: Held(pairs, wide, k) == if k in m then Some(m[k]) else None)
    && (forall k :: k in m ==> m[k].key == k)
    && (forall channel :: channel in pairs ==> pairs[channel] != map[])
  }

  function BucketOf(pairs: PairEntries, channel: Channel): map<string, Entry> {
    if channel in pairs then pairs[channel] else map[]
  }

  lemma PairPutFlattens(pairs: PairEntries, wide: WideEntries, m: map<Key, Entry>, symbol: string, e: Entry)
    requires Flattens(pairs, wide, m) && e.key.pair == Some(symbol)
    ensures Flattens(pairs[e.key.channel := BucketOf(pairs, e.key.channel)[symbol := e]], wide, m[e.key := e])
  {
    var channel, bucket := e.key.channel, BucketOf(pairs, e.key.channel)[symbol := e];
    var pairs' := pairs[channel := bucket];
    assert symbol in bucket && bucket != map[];
    forall k ensures Held(pairs', wide, k) == if k in m[e.key := e] then Some(m[e.key := e][k]) else None {
      assert Held(pairs, wide, k) == if k in m then Some(m[k]) else None;
      if k.channel == channel && k.pair == Some(symbol) { assert k == e.key; }
    }
  }

  lemma WidePutFlattens(pairs: PairEntries, wide: WideEntries, m: map<Key, Entry>, e: Entry)
    requires Flattens(pairs, wide, m) && e.key.pair == None
    ensures Flattens(pairs, wide[e.key.channel := e], m[e.key := e])
  {
    var wide' := wide[e.key.channel := e];
    forall k ensures Held(pairs, wide', k) == if k in m[e.key := e] then Some(m[e.key := e][k]) else None {
      assert Held(pairs, wide, k) == if k in m then Some(m[k]) else None;
      if k.channel == e.key.channel && k.pair == None { assert k == e.key; }
    }
  }

  /** The bucket goes with its last symbol. */
  function PairRemoved(pairs: PairEntries, channel: Channel, symbol: string): PairEntries {
    var bucket := BucketOf(pairs, channel) - {symbol};
    if bucket == map[] then pairs - {channel} else pairs[channel := bucket]
  }

  lemma PairRemovalFlattens(pairs: PairEntries, wide: WideEntries, m: map<Key, Entry>, k: Key)
    requires Flattens(pairs, wide, m) && k.pair.Some?
    ensures Flattens(PairRemoved(pairs, k.channel, k.pair.value), wide, m - {k})
  {
    var bucket := BucketOf(pairs, k.channel) - {k.pair.value};
    var pairs' := PairRemoved(pairs, k.channel, k.pair.value);
    forall j ensures Held(pairs', wide, j) == if j in m - {k} then Some((m - {k})[j]) else None {
      assert Held(pairs, wide, j) == if j in m then Some(m[j]) else None;
      if j.pair.Some? && j.channel == k.channel {
        assert j == k <==> j.pair.value == k.pair.value;
        assert j.pair.value in bucket <==> j.channel in pairs && j.pair.value in pairs[j.channel] && j != k;
      }
    }
  }

  lemma WideRemovalFlattens(pairs: PairEntries, wide: WideEntries, m: map<Key, Entry>, k: Key)
    requires Flattens(pairs, wide, m) && k.pair.None?
    ensures Flattens(pairs, wide - {k.channel}, m - {k})
  {
    forall j ensures Held(pairs, wide - {k.channel}, j) == if j in m - {k} then Some((m - {k})[j]) else None {
      assert Held(pairs, wide, j) == if j in m then Some(m[j]) else None;
      if j.channel == k.channel && j.pair == None { assert j == k; }
    }
  }

  /** Entries keep their keys. */
  lemma KeysStay(s: Reg, e: Entry, guardBacked: bool)
    requires forall k :: k in s.entries ==> s.entries[k].key == k
    ensures RegisteredEntry(s, e, guardBacked).key == e.key
  {
  }

  function InChannelEntries(m: map<Key, Entry>, channel: Option<Channel>): map<Key, Entry> {
    map k | k in m && InChannel(k, channel) :: m[k]
  }

  function Tag(e: Entry): (Entry, RemovedKind) {
    (e, if IsTombstone(e) then TombstoneRemoved else LiveRemoved)
  }

  function Tagged(es: seq<Entry>): seq<(Entry, RemovedKind)> {
    seq(|es|, i requires 0 <= i < |es| => Tag(es[i]))
  }

  function KeysOf(es: seq<Entry>): set<Key> {
    set e | e in es :: e.key
  }

  lemma ListedKeys(es: seq<Entry>, m: map<Key, Entry>)
    requires Lists(es, m) && forall k :: k in m ==> m[k].key == k
    ensures KeysOf(es) == m.Keys
  {
    forall k | k in m ensures k in KeysOf(es) {
      assert m[k] in es;
    }
  }

  /** One channel's part of the nested maps, and what is left without it. */
  lemma OneChannel(pairs: PairEntries, wide: WideEntries, m: map<Key, Entry>, c: Channel)
    requires Flattens(pairs, wide, m)
    ensures Flattens(if c in pairs then map[c := pairs[c]] else map[], if c in wide then map[c := wide[c]] else map[],
                     InChannelEntries(m, Some(c)))
    ensures Flattens(pairs - {c}, wide - {c}, m - InChannelEntries(m, Some(c)).Keys)
  {
    var rest := m - InChannelEntries(m, Some(c)).Keys;
    var pairs', wide' := if c in pairs then map[c := pairs[c]] else map[], if c in wide then map[c := wide[c]] else map[];
    forall k ensures Held(pairs', wide', k) == if k in InChannelEntries(m, Some(c)) then Some(m[k]) else None
             ensures Held(pairs - {c}, wide - {c}, k) == if k in rest then Some(rest[k]) else None {
      assert Held(pairs, wide, k) == if k in m then Some(m[k]) else None;
    }
  }

  class SubscriptionRegistry {
    var entries: PairEntries
    var channelWide: WideEntries
    var mirror: map<Key, MirrorRow>
    var nextGeneration: nat
    var guardRefs: GuardRefs
    var livenessEpoch: nat
    ghost var view: Reg

    ghost predicate Valid()
      reads this
    {
      && Flattens(entries, channelWide, view.entries)
      && view.mirror == mirror && view.nextGeneration == nextGeneration
      && view.guardRefs == guardRefs && view.epoch == livenessEpoch
    }

    constructor ()
      ensures Valid() && view == EMPTY
    {
      entries, channelWide, mirror, nextGeneration, guardRefs, livenessEpoch := map[], map[], map[], 0, map[], 0;
      view := EMPTY;
    }

    function EntryAt(k: Key): (found: Option<Entry>)
      reads this
    {
      Held(entries, channelWide, k)
    }

    /** Puts an entry in its place, making the channel's map on the first pair. */
    method Put(e: Entry)
      requires Valid()
      modifies this`entries, this`channelWide, this`view
      ensures Valid() && view == old(view).(entries := old(view).entries[e.key := e])
    {
      match e.key.pair {
        case Some(symbol) =>
          PairPutFlattens(entries, channelWide, view.entries, symbol, e);
          var inner := BucketOf(entries, e.key.channel);
          entries := entries[e.key.channel := inner[symbol := e]];
        case None =>
          WidePutFlattens(entries, channelWide, view.entries, e);
          channelWide := channelWide[e.key.channel := e];
      }
      view := view.(entries := view.entries[e.key := e]);
    }

    /** One more subscriber, a revived tombstone, or a fresh entry; a revival settles its credits. */
    method BumpOrRevive(entry: Entry, guardBacked: bool) returns (after: Entry)
      requires Valid()
      ensures after == RegisteredEntry(view, entry, guardBacked)
    {
      var generation := nextGeneration + 1;
      match EntryAt(entry.key) {
        case Some(present) =>
          if present.count == 0 {
            var holders, dyingGeneration := present.tombstoneHolders, present.generation;
            after := present.(params := entry.params, builder := entry.builder, generation := generation,
                              lastSequence := None, state := Pending, tombstoneHolders := 0,
                              count := present.count + 1);
            var dyingGuards := |GuardsAt(guardRefs, entry.key, dyingGeneration)|;
            var owed := Monus(Monus(holders, dyingGuards), if guardBacked then 0 else 1);
            after := after.(staleReleaseCredits := after.staleReleaseCredits + owed);
          } else {
            after := present.(count := present.count + 1);
          }
        case None =>
          after := entry.(generation := generation);
      }
    }

    method Register(entry: Entry, now: real, guardBacked: bool) returns (count: nat)
      requires Valid()
      modifies this
      ensures Valid() && (view, count) == Registry.Register(old(view), entry, now, guardBacked)
    {
      ghost var before := view;
      var after := BumpOrRevive(entry, guardBacked);
      KeysStay(before, entry, guardBacked);
      livenessEpoch := livenessEpoch + 1;
      nextGeneration := nextGeneration + 1;
      view := view.(epoch := livenessEpoch, nextGeneration := nextGeneration);
      Put(after);
      count := after.count;
      if count == 1 {
        mirror := mirror[entry.key := MirrorRow(Pending, now)];
      }
      view := Registry.Register(before, entry, now, guardBacked).0;
    }

    method Deregister(k: Key)
      requires Valid()
      modifies this
      ensures Valid() && view == Registry.Deregister(old(view), k)
    {
      livenessEpoch := livenessEpoch + 1;
      match k.pair {
        case Some(symbol) =>
          PairRemovalFlattens(entries, channelWide, view.entries, k);
          if k.channel in entries {
            var inner := entries[k.channel] - {symbol};
            if inner == map[] {
              entries := entries - {k.channel};
            } else {
              entries := entries[k.channel := inner];
            }
          }
        case None =>
          WideRemovalFlattens(entries, channelWide, view.entries, k);
          channelWide := channelWide - {k.channel};
      }
      mirror := mirror - {k};
      view := Registry.Deregister(view, k);
    }

    method ReleaseInner(k: Key, allowCredit: bool) returns (remaining: nat)
      requires Valid()
      modifies this
      ensures Valid() && (view, remaining) == Registry.ReleaseInner(old(view), k, allowCredit)
    {
      if EntryAt(k).None? { return 0; }
      var e := EntryAt(k).value;
      if allowCredit && e.staleReleaseCredits > 0 {
        Put(e.(staleReleaseCredits := e.staleReleaseCredits - 1));
        return e.count;
      }
      if allowCredit && Monus(Holders(e), |GuardsAt(guardRefs, k, e.generation)|) == 0 {
        return e.count;
      }
      remaining := Countdown(k);
    }

    /** A release that reaches the count; only the live one moves the epoch before a removal does. */
    method Countdown(k: Key) returns (remaining: nat)
      requires Valid() && k in view.entries
      modifies this
      ensures Valid() && (view, remaining) == Registry.Countdown(old(view), k)
    {
      var e := EntryAt(k).value;
      if IsTombstone(e) {
        var left := Monus(e.tombstoneHolders, 1);
        Put(e.(tombstoneHolders := left));
        if left == 0 { Deregister(k); }
        return 0;
      }
      livenessEpoch := livenessEpoch + 1;
      view := view.(epoch := livenessEpoch);
      remaining := Monus(e.count, 1);
      Put(e.(count := remaining));
      if remaining == 0 { Deregister(k); }
    }

    method Release(k: Key) returns (remaining: nat)
      requires Valid()
      modifies this
      ensures Valid() && (view, remaining) == Registry.Release(old(view), k)
    {
      remaining := ReleaseInner(k, true);
    }

    method RecordGuardRef(g: GuardRef)
      requires Valid()
      modifies this`guardRefs, this`view
      ensures Valid() && view == Registry.RecordGuardRef(old(view), g)
    {
      var found := EntryAt(g.key);
      if found.Some? {
        guardRefs := guardRefs[g := found.value.generation];
        view := view.(guardRefs := guardRefs);
      }
    }

    method ReleaseGuardRef(g: GuardRef) returns (remaining: nat)
      requires Valid()
      modifies this
      ensures Valid() && (view, remaining) == Registry.ReleaseGuardRef(old(view), g)
    {
      var recorded := if g in guardRefs then Some(guardRefs[g]) else None;
      guardRefs := guardRefs - {g};
      view := view.(guardRefs := guardRefs);
      var live := EntryAt(g.key);
      if recorded.Some? && live.Some? && recorded.value != live.value.generation {
        remaining := live.value.count;
      } else {
        remaining := ReleaseInner(g.key, false);
      }
    }

    /** Writes an entry's state through to the mirror. */
    method SetState(e: Entry)
      requires Valid()
      modifies this
      ensures Valid() && view == WithState(old(view), e.key, e)
      ensures livenessEpoch == old(livenessEpoch)
    {
      Put(e);
      if e.key in mirror {
        mirror := mirror[e.key := mirror[e.key].(state := e.state)];
      }
      view := view.(mirror := mirror);
    }

    method NoteSequence(channel: Channel, sequence: nat, isSnapshot: bool) returns (skipped: Option<nat>)
      requires Valid()
      modifies this`channelWide, this`view
      ensures Valid() && (view, skipped) == Registry.NoteSequence(old(view), channel, sequence, isSnapshot)
    {
      var k := Key(channel, None);
      assert EntryAt(k) == if k in view.entries then Some(view.entries[k]) else None;
      if channel !in channelWide { return None; }
      var e := channelWide[channel];
      var after := e.(lastSequence := Some(sequence));
      WidePutFlattens(entries, channelWide, view.entries, after);
      channelWide := channelWide[channel := after];
      view := view.(entries := view.entries[k := after]);
      skipped := Skipped(e.lastSequence, sequence, isSnapshot);
    }

    method NoteAcked(k: Key)
      requires Valid()
      modifies this
      ensures Valid() && view == Registry.NoteAcked(old(view), k)
    {
      var found := EntryAt(k);
      if found.Some? && found.value.state.Pending? {
        SetState(found.value.(state := Acked));
      }
    }

    method NoteTerminated(k: Key, cause: Cause, lastError: Option<string>)
      requires Valid()
      modifies this
      ensures Valid() && view == Registry.NoteTerminated(old(view), k, cause, lastError)
    {
      var found := EntryAt(k);
      if found.None? || IsTombstone(found.value) { return; }
      var e := found.value;
      SetState(e.(tombstoneHolders := e.count, count := 0, state := Terminated(cause, lastError)));
      livenessEpoch := livenessEpoch + 1;
      view := view.(epoch := livenessEpoch);
    }

    /** Moves every entry out, or one channel's. */
    method TakeOut(channel: Option<Channel>) returns (pairs: PairEntries, wide: WideEntries)
      requires Flattens(entries, channelWide, view.entries)
      modifies this`entries, this`channelWide
      ensures Flattens(pairs, wide, InChannelEntries(view.entries, channel))
      ensures Flattens(entries, channelWide, view.entries - InChannelEntries(view.entries, channel).Keys)
    {
      match channel {
        case Some(c) =>
          OneChannel(entries, channelWide, view.entries, c);
          pairs := if c in entries then map[c := entries[c]] else map[];
          wide := if c in channelWide then map[c := channelWide[c]] else map[];
          entries, channelWide := entries - {c}, channelWide - {c};
        case None =>
          assert InChannelEntries(view.entries, channel) == view.entries;
          pairs, wide := entries, channelWide;
          entries, channelWide := map[], map[];
      }
    }

    method ForgetRows(es: seq<Entry>)
      modifies this`mirror
      ensures mirror == old(mirror) - KeysOf(es)
    {
      for i := 0 to |es|
        invariant mirror == old(mirror) - KeysOf(es[..i])
      {
        assert KeysOf(es[..i + 1]) == KeysOf(es[..i]) + {es[i].key};
        mirror := mirror - {es[i].key};
      }
      assert es[..|es|] == es;
    }

    /** Takes every entry out, or one channel's; what was taken is returned in order, tagged live or not. */
    method DeregisterAll(channel: Option<Channel>) returns (removed: seq<(Entry, RemovedKind)>)
      requires Valid()
      modifies this
      ensures Valid() && view == Registry.DeregisterAll(old(view), channel)
      ensures exists es :: IsListing(es, InChannelEntries(old(view).entries, channel)) && |removed| == |es|
                           && forall i :: 0 <= i < |es| ==> removed[i].0 == es[i]
      ensures forall i :: 0 <= i < |removed| ==> (removed[i].1.TombstoneRemoved? <==> removed[i].0.state.Terminated?)
    {
      ghost var taken := InChannelEntries(view.entries, channel);
      livenessEpoch := livenessEpoch + 1;
      var pairs, wide := TakeOut(channel);
      var all := AllEntries(pairs, wide, taken);
      var sorted := SortByOrder(all);
      PermutedLists(all, sorted, taken);
      ForgetRows(sorted);
      ListedKeys(sorted, taken);
      assert taken.Keys == set k | k in view.entries && InChannel(k, channel);
      view := Registry.DeregisterAll(view, channel);
      removed := Tagged(sorted);
    }

    // -------------------------------------------------------------- reading

    method HasUrlEntry(url: WsUrl) returns (found: bool)
      requires Valid()
      ensures found == Registry.HasUrlEntry(view, url)
    {
      var all := AllEntries(entries, channelWide, view.entries);
      found := false;
      for i := 0 to |all|
        invariant found <==> exists j :: 0 <= j < i && LiveOn(all[j], url)
      {
        found := found || LiveOn(all[i], url);
      }
      if Registry.HasUrlEntry(view, url) {
        ghost var k :| k in view.entries && LiveOn(view.entries[k], url);
        assert view.entries[k] in all;
      } else {
        assert forall j :: 0 <= j < |all| ==> all[j] in all;
      }
    }

    /** The live entries of one url, in replay order. */
    method EntriesForResubscribeSorted(url: WsUrl) returns (es: seq<Entry>)
      requires Valid()
      ensures IsListing(es, LiveEntries(view, url))
    {
      var all := AllEntries(entries, channelWide, view.entries);
      var live := (e: Entry) => LiveOn(e, url);
      FilteredLists(all, view.entries, live);
      assert Accepted(view.entries, live) == LiveEntries(view, url);
      var kept := Filter(all, live);
      es := SortByOrder(kept);
      PermutedLists(kept, es, LiveEntries(view, url));
    }

    method ComposeSubscribeFramesForUrl(url: WsUrl) returns (frames: seq<Frame>)
      requires Valid()
      ensures IsBatch(frames, LiveEntries(view, url))
    {
      var listed := EntriesForResubscribeSorted(url);
      frames := ComposeFrames(listed);
    }

    /** The head of the replay, whose ack the rest waits for. */
    method ComposeFirstSignedSubscribe(url: WsUrl) returns (first: Option<Frame>)
      requires Valid()
      ensures IsFirst(first, LiveEntries(view, url))
    {
      var listed := EntriesForResubscribeSorted(url);
      HeadLeads(listed, LiveEntries(view, url));
      if listed == [] {
        first := None;
      } else {
        first := Some(FrameOf(listed[0]));
      }
    }

    /** The replay but for the frame already sent, told apart by its key. */
    method ComposeRemainingSignedSubscribes(url: WsUrl, alreadySent: Key) returns (frames: seq<Frame>)
      requires Valid()
      ensures IsBatch(frames, LiveEntries(view, url) - {alreadySent})
    {
      var full := ComposeSubscribeFramesForUrl(url);
      BatchBut(full, LiveEntries(view, url), alreadySent);
      frames := Retain(full, alreadySent);
    }

    method LiveSubscribeKeysForUrl(url: WsUrl, exclude: Option<Key>) returns (keys: seq<Frame>)
      requires Valid()
      ensures IsBatch(keys, if exclude.Some? then LiveEntries(view, url) - {exclude.value} else LiveEntries(view, url))
    {
      var listed := EntriesForResubscribeSorted(url);
      var kept := listed;
      if exclude.Some? {
        AllBut(listed, LiveEntries(view, url), exclude.value);
        kept := Filter(listed, (e: Entry) => e.key != exclude.value);
      }
      keys := ComposeFrames(kept);
    }
  }

  method ComposeFrames(es: seq<Entry>) returns (frames: seq<Frame>)
    ensures frames == FramesOf(es)
  {
    frames := [];
    for i := 0 to |es|
      invariant frames == FramesOf(es[..i])
    {
      frames := frames + [FrameOf(es[i])];
    }
    assert es[..|es|] == es;
  }

  lemma AllBut(es: seq<Entry>, m: map<Key, Entry>, k: Key)
    requires IsListing(es, m) && forall j :: j in m ==> m[j].key == j
    ensures IsListing(Filtered(es, (e: Entry) => e.key != k), m - {k})
  {
    var others := (e: Entry) => e.key != k;
    FilteredLists(es, m, others);
    assert Accepted(m, others) == m - {k};
  }

  /** A batch without the frames of one key. */
  function Retained(frames: seq<Frame>, k: Key): seq<Frame> {
    if frames == [] then []
    else
      var n := |frames| - 1;
      Retained(frames[..n], k) + if frames[n].key != k then [frames[n]] else []
  }

  method Retain(frames: seq<Frame>, k: Key) returns (kept: seq<Frame>)
    ensures kept == Retained(frames, k)
  {
    kept := [];
    for i := 0 to |frames|
      invariant kept == Retained(frames[..i], k)
    {
      assert frames[..i + 1][..i] == frames[..i];
      if frames[i].key != k {
        kept := kept + [frames[i]];
      }
    }
    assert frames[..|frames|] == frames;
  }

  lemma {:induction false} RetainedFrames(es: seq<Entry>, k: Key)
    ensures Retained(FramesOf(es), k) == FramesOf(Filtered(es, (e: Entry) => e.key != k))
  {
    if es != [] {
      var n := |es| - 1;
      RetainedFrames(es[..n], k);
      assert FramesOf(es)[..n] == FramesOf(es[..n]);
    }
  }

  lemma BatchBut(frames: seq<Frame>, m: map<Key, Entry>, k: Key)
    requires IsBatch(frames, m) && forall j :: j in m ==> m[j].key == j
    ensures IsBatch(Retained(frames, k), m - {k})
  {
    var es :| IsListing(es, m) && frames == FramesOf(es);
    AllBut(es, m, k);
    RetainedFrames(es, k);
  }

  /** Every entry of the nested maps, in whatever order they are iterated. */
  method AllEntries(pairs: PairEntries, wide: WideEntries, ghost m: map<Key, Entry>) returns (all: seq<Entry>)
    requires Flattens(pairs, wide, m)
    ensures Lists(all, m)
  {
    all := [];
    ghost var done := {};
    var wideLeft := wide.Keys;
    while wideLeft != {}
      invariant wideLeft <= wide.Keys
      invariant forall k :: k in done <==> k in m && k.pair.None? && k.channel !in wideLeft
      invariant Lists(all, Among(m, done))
    {
      var channel :| channel in wideLeft;
      wideLeft := wideLeft - {channel};
      ListsOneMore(pairs, wide, m, done, all, Key(channel, None));
      all, done := all + [wide[channel]], done + {Key(channel, None)};
    }
    var left := pairs.Keys;
    while left != {}
      invariant left <= pairs.Keys
      invariant forall k :: k in done <==> k in m && (k.pair.None? || k.channel !in left)
      invariant Lists(all, Among(m, done))
    {
      var channel :| channel in left;
      var symbols := pairs[channel].Keys;
      while symbols != {}
        invariant symbols <= pairs[channel].Keys
        invariant forall k :: k in done <==>
                    (k in m && (k.pair.None? || k.channel !in left || (k.channel == channel && k.pair.value !in symbols)))
        invariant Lists(all, Among(m, done))
      {
        var symbol :| symbol in symbols;
        symbols := symbols - {symbol};
        ListsOneMore(pairs, wide, m, done, all, Key(channel, Some(symbol)));
        all, done := all + [pairs[channel][symbol]], done + {Key(channel, Some(symbol))};
      }
      left := left - {channel};
    }
    assert Among(m, done) == m;
  }

  function Among(m: map<Key, Entry>, ks: set<Key>): map<Key, Entry> {
    map k | k in m && k in ks :: m[k]
  }

  lemma ListsOneMore(pairs: PairEntries, wide: WideEntries, m: map<Key, Entry>, done: set<Key>, all: seq<Entry>, k: Key)
    requires Flattens(pairs, wide, m) && Held(pairs, wide, k).Some?
    requires k !in done && Lists(all, Among(m, done))
    ensures k in m && Held(pairs, wide, k) == Some(m[k]) && Lists(all + [m[k]], Among(m, done + {k}))
  {
    assert Held(pairs, wide, k) == if k in m then Some(m[k]) else None;
    var more := all + [m[k]];
    assert more[|all|] == m[k];
    forall j | j in Among(m, done + {k}) ensures m[j] in more {
      if j != k {
        assert j in Among(m, done);
        assert Among(m, done)[j] in all;
      }
    }
  }

  /** The registry of any run keeps its entries under their own keys. */
  ghost predicate SelfKeyed(s: Reg) {
    forall k :: k in s.entries ==> s.entries[k].key == k
  }

  lemma StepKeepsKeys(s: Reg, op: Op)
    requires SelfKeyed(s)
    ensures SelfKeyed(Step(s, op))
  {
  }

  lemma {:induction false} RunIsSelfKeyed(ops: seq<Op>)
    ensures SelfKeyed(Run(ops))
  {
    if ops != [] {
      RunIsSelfKeyed(ops[..|ops| - 1]);
      StepKeepsKeys(Run(ops[..|ops| - 1]), ops[|ops| - 1]);
    }
  }

  /**
   * After any run, with the registry unchanged, the first frame and then the remaining ones are a full
   * batch, in order; and the very batch composed at once when no two live keys share an order key, as in
   * every run that stores wire channels only.
   */
  lemma FirstFrameThenRest(ops: seq<Op>, url: WsUrl, full: seq<Frame>, first: Frame, rest: seq<Frame>)
    requires IsBatch(full, LiveEntries(Run(ops), url)) && IsFirst(Some(first), LiveEntries(Run(ops), url))
    requires IsBatch(rest, LiveEntries(Run(ops), url) - {first.key})
    ensures IsBatch([first] + rest, LiveEntries(Run(ops), url))
    ensures Untied(LiveEntries(Run(ops), url)) ==> full == [first] + rest
    ensures WireOnly(ops) ==> full == [first] + rest
  {
    RunIsSelfKeyed(ops);
    var m := LiveEntries(Run(ops), url);
    FirstOfBatch(m, full, first, rest);
    if WireOnly(ops) { WireRunsAreUntied(ops, url); }
  }

  lemma FirstOfBatch(m: map<Key, Entry>, full: seq<Frame>, first: Frame, rest: seq<Frame>)
    requires forall k :: k in m ==> m[k].key == k
    requires IsBatch(full, m) && IsFirst(Some(first), m) && IsBatch(rest, m - {first.key})
    ensures IsBatch([first] + rest, m)
    ensures Untied(m) ==> full == [first] + rest
  {
    var head :| Leads(head, m) && first == FrameOf(head);
    var others :| IsListing(others, m - {first.key}) && rest == FramesOf(others);
    assert IsListing([head] + others, m) by { LeaderThenRest(head, others, m); }
    FramesOfMore(head, others);
    if Untied(m) { OneBatch(full, [first] + rest, m); }
  }

  /** Untied entries have one batch. */
  lemma OneBatch(a: seq<Frame>, b: seq<Frame>, m: map<Key, Entry>)
    requires IsBatch(a, m) && IsBatch(b, m) && Untied(m) && forall k :: k in m ==> m[k].key == k
    ensures a == b
  {
    var x :| IsListing(x, m) && a == FramesOf(x);
    var y :| IsListing(y, m) && b == FramesOf(y);
    ListingIsUnique(x, y, m);
  }

  lemma FramesOfMore(e: Entry, es: seq<Entry>)
    ensures FramesOf([e] + es) == [FrameOf(e)] + FramesOf(es)
  {
  }

  /** What a batch contains. */
  lemma BatchMembers(frames: seq<Frame>, m: map<Key, Entry>, f: Frame)
    requires IsBatch(frames, m) && forall k :: k in m ==> m[k].key == k
    ensures f in frames <==> f.key in m && f.params == m[f.key].params
  {
    var es :| IsListing(es, m) && frames == FramesOf(es);
    if f in frames {
      var i :| 0 <= i < |frames| && frames[i] == f;
      assert es[i] in es;
    }
    if f.key in m && f.params == m[f.key].params {
      assert m[f.key] in es;
      var i :| 0 <= i < |es| && es[i] == m[f.key];
      assert frames[i] == f;
    }
  }

  /**
   * Whatever happened to the registry since the first frame was sent, the remaining frames and the deferred
   * keys are the same frames: those of every entry live now but for the key already sent; and the same list
   * when no two live keys share an order key, as in every run that stores wire channels only.
   */
  lemma RemainingAreTheDeferredKeys(ops: seq<Op>, url: WsUrl, sent: Key, remaining: seq<Frame>, deferred: seq<Frame>)
    requires IsBatch(remaining, LiveEntries(Run(ops), url) - {sent})
    requires IsBatch(deferred, LiveEntries(Run(ops), url) - {sent})
    ensures forall f: Frame :: f in remaining <==> f in deferred
    ensures forall f: Frame :: f in remaining <==>
              (f.key != sent && f.key in Run(ops).entries && LiveOn(Run(ops).entries[f.key], url)
               && f.params == Run(ops).entries[f.key].params)
    ensures Untied(LiveEntries(Run(ops), url)) ==> remaining == deferred
    ensures WireOnly(ops) ==> remaining == deferred
  {
    RunIsSelfKeyed(ops);
    var live := LiveEntries(Run(ops), url);
    var m := live - {sent};
    forall f: Frame ensures f in remaining <==> f.key in m && f.params == m[f.key].params
                    ensures f in deferred <==> f.key in m && f.params == m[f.key].params {
      BatchMembers(remaining, m, f);
      BatchMembers(deferred, m, f);
    }
    if WireOnly(ops) { WireRunsAreUntied(ops, url); }
    if Untied(live) {
      assert Untied(m);
      OneBatch(remaining, deferred, m);
    }
  }
}
