/**
 * One side of an order book as a finite map from sort key to level.  The best level is the
 * one with the smallest key: asks are keyed by price, bids by the negated price.
 */
module PriceLadder {
  import opened Util

  /** The keys strictly better than `k`. */
  function Better(keys: set<real>, k: real): set<real> {
    set x | x in keys && x < k
  }

  /** The `n` best keys: those with fewer than `n` keys ahead of them. */
  function TopKeys(keys: set<real>, n: nat): set<real> {
    set k | k in keys && |Better(keys, k)| < n
  }

  /** The `n` best levels of a side. */
  function Top<L>(side: map<real, L>, n: nat): map<real, L> {
    map k | k in TopKeys(side.Keys, n) :: side[k]
  }

  lemma BetterShrinks(a: set<real>, b: set<real>, j: real, k: real)
    requires a <= b && j <= k
    ensures Better(a, j) <= Better(b, k)
    ensures |Better(a, j)| <= |Better(b, k)|
  {
    SubsetSize(Better(a, j), Better(b, k));
  }

  /** A non-empty side has a worst key (and, mirrored, a best one). */
  lemma {:induction false} WorstExists(keys: set<real>) returns (w: real)
    requires keys != {}
    ensures w in keys && forall x :: x in keys ==> x <= w
    decreases |keys|
  {
    var k := Pick(keys);
    var rest := keys - {k};
    assert keys == rest + {k};
    if rest == {} {
      w := k;
    } else {
      var w' := WorstExists(rest);
      w := if k <= w' then w' else k;
    }
  }

  lemma {:induction false} BestExists(keys: set<real>) returns (b: real)
    requires keys != {}
    ensures b in keys && forall x :: x in keys ==> b <= x
    decreases |keys|
  {
    var k := Pick(keys);
    var rest := keys - {k};
    assert keys == rest + {k};
    if rest == {} {
      b := k;
    } else {
      var b' := BestExists(rest);
      b := if b' <= k then b' else k;
    }
  }

  /** A side no deeper than `n` is its own top `n`. */
  lemma TopOfShallow(keys: set<real>, n: nat)
    requires |keys| <= n
    ensures TopKeys(keys, n) == keys
  {
    forall k | k in keys
      ensures |Better(keys, k)| < n
    {
      SubsetSize(Better(keys, k), keys);
    }
  }

  /** Dropping the worst key of a side deeper than `n` leaves its top `n` alone. */
  lemma DropWorst(keys: set<real>, n: nat, w: real)
    requires |keys| > n
    requires w in keys && forall x :: x in keys ==> x <= w
    ensures TopKeys(keys - {w}, n) == TopKeys(keys, n)
  {
    assert Better(keys, w) == keys - {w};
    forall k | k in keys - {w}
      ensures Better(keys - {w}, k) == Better(keys, k)
    {
    }
  }

  /** The top `n` of a side at least `n` deep has exactly `n` keys. */
  lemma {:induction false} TopSize(keys: set<real>, n: nat)
    requires |keys| >= n
    ensures |TopKeys(keys, n)| == n
    decreases |keys|
  {
    if |keys| == n {
      TopOfShallow(keys, n);
    } else {
      var w := WorstExists(keys);
      DropWorst(keys, n, w);
      TopSize(keys - {w}, n);
    }
  }

  /** A part of a side that keeps all of its top `n` has that same top `n`. */
  lemma TopOfPart(part: set<real>, whole: set<real>, n: nat)
    requires TopKeys(whole, n) <= part <= whole
    ensures TopKeys(part, n) == TopKeys(whole, n)
  {
    forall k | k in part
      ensures k in TopKeys(part, n) <==> k in TopKeys(whole, n)
    {
      BetterShrinks(part, whole, k, k);
      if k !in TopKeys(whole, n) {
        forall x | x in TopKeys(whole, n)
          ensures x < k
        {
          if k <= x { BetterShrinks(whole, whole, k, x); }
        }
        SubsetSize(Better(whole, k), whole);
        TopSize(whole, n);
        SubsetSize(TopKeys(whole, n), Better(part, k));
      }
    }
  }

  /** Trimming to a deeper window first does not change a shallower one. */
  lemma TopOfTop(keys: set<real>, n: nat, d: nat)
    requires n <= d
    ensures TopKeys(TopKeys(keys, d), n) == TopKeys(keys, n)
  {
    TopOfPart(TopKeys(keys, d), keys, n);
  }

  /** The top `n` after adding a key depends only on the top `n` before. */
  lemma TopAfterAdd(keys: set<real>, k: real, n: nat)
    ensures TopKeys(keys + {k}, n) == TopKeys(TopKeys(keys, n) + {k}, n)
  {
    var whole := keys + {k};
    forall x | x in TopKeys(whole, n)
      ensures x in TopKeys(keys, n) + {k}
    {
      BetterShrinks(keys, whole, x, x);
    }
    TopOfPart(TopKeys(keys, n) + {k}, whole, n);
  }

  /** The top `n - 1` after removing a key depends only on the top `n` before. */
  lemma TopAfterRemove(keys: set<real>, k: real, n: nat)
    requires n >= 1
    ensures TopKeys(keys - {k}, n - 1) == TopKeys(TopKeys(keys, n) - {k}, n - 1)
  {
    var whole := keys - {k};
    forall x | x in TopKeys(whole, n - 1)
      ensures x in TopKeys(keys, n) - {k}
    {
      assert Better(keys, x) <= Better(whole, x) + {k};
      SubsetSize(Better(keys, x), Better(whole, x) + {k});
    }
    TopOfPart(TopKeys(keys, n) - {k}, whole, n - 1);
  }

  // ---------------------------------------------------------------- listing in key order

  ghost predicate Ascending(s: seq<real>) {
    forall i, j :: 0 <= i < j < |s| ==> s[i] < s[j]
  }

  /** `s` lists exactly `keys`, best first. */
  ghost predicate Lists(s: seq<real>, keys: set<real>) {
    Ascending(s) && forall x :: x in keys <==> x in s
  }

  /** There is only one way to list a set of keys in order. */
  lemma {:induction false} ListingUnique(s: seq<real>, t: seq<real>, keys: set<real>)
    requires Lists(s, keys) && Lists(t, keys)
    ensures s == t
    decreases |s|
  {
    assert |t| > 0 ==> t[0] in t && t[0] in keys && t[0] in s;
    if s != [] {
      assert s[0] in s && s[0] in keys && s[0] in t;
      assert s[0] == t[0];
      var rest := keys - {s[0]};
      forall x | x in rest
        ensures x in s[1..] && x in t[1..]
      {
        assert x in s && x in t;
      }
      ListingUnique(s[1..], t[1..], rest);
      assert s == [s[0]] + s[1..] && t == [t[0]] + t[1..];
    }
  }

  /** The keys of a side listed best first. */
  ghost function Listing(keys: set<real>): (s: seq<real>)
    ensures Lists(s, keys)
  {
    ListingExists(keys);
    var s :| Lists(s, keys);
    s
  }

  lemma {:induction false} ListingExists(keys: set<real>)
    ensures exists s :: Lists(s, keys)
    decreases |keys|
  {
    if keys == {} {
      assert Lists([], keys);
    } else {
      var w := WorstExists(keys);
      ListingExists(keys - {w});
      var s :| Lists(s, keys - {w});
      forall i | 0 <= i < |s|
        ensures s[i] < w
      {
        assert s[i] in s;
      }
      assert Lists(s + [w], keys);
    }
  }

  /** The levels at `keys`, in that order. */
  function LevelsAt<L>(side: map<real, L>, keys: seq<real>): seq<L>
    requires forall i :: 0 <= i < |keys| ==> keys[i] in side
  {
    if keys == [] then [] else [side[keys[0]]] + LevelsAt(side, keys[1..])
  }

  lemma {:induction false} SameLevelsAt<L>(a: map<real, L>, b: map<real, L>, keys: seq<real>)
    requires forall i :: 0 <= i < |keys| ==> keys[i] in a && keys[i] in b && a[keys[i]] == b[keys[i]]
    ensures LevelsAt(a, keys) == LevelsAt(b, keys)
    decreases |keys|
  {
    if keys != [] { SameLevelsAt(a, b, keys[1..]); }
  }

  lemma ListedKeys(keys: set<real>)
    ensures forall i :: 0 <= i < |Listing(keys)| ==> Listing(keys)[i] in keys
  {
    var s := Listing(keys);
    forall i | 0 <= i < |s|
      ensures s[i] in keys
    {
      assert s[i] in s;
    }
  }

  /** The levels of the top `n`, best first. */
  ghost function TopList<L>(side: map<real, L>, n: nat): seq<L> {
    ListedKeys(TopKeys(side.Keys, n));
    LevelsAt(side, Listing(TopKeys(side.Keys, n)))
  }

  /** Sides with the same top `n` list the same levels. */
  lemma SameTopSameList<L>(a: map<real, L>, b: map<real, L>, n: nat)
    requires Top(a, n) == Top(b, n)
    ensures TopList(a, n) == TopList(b, n)
  {
    var keys := TopKeys(a.Keys, n);
    assert keys == Top(a, n).Keys == Top(b, n).Keys == TopKeys(b.Keys, n);
    ListedKeys(keys);
    forall k | k in keys
      ensures a[k] == b[k]
    {
      assert Top(a, n)[k] == Top(b, n)[k];
    }
    SameLevelsAt(a, b, Listing(keys));
  }

  /** The top `n` is the best key and the top `n - 1` of the others. */
  lemma TopKeysHead(keys: set<real>, n: nat, b: real)
    requires n >= 1 && b in keys && forall x :: x in keys ==> b <= x
    ensures TopKeys(keys, n) == TopKeys(keys - {b}, n - 1) + {b}
  {
    assert Better(keys, b) == {};
    forall k | k in keys - {b}
      ensures k in TopKeys(keys, n) <==> k in TopKeys(keys - {b}, n - 1)
    {
      assert Better(keys, k) == Better(keys - {b}, k) + {b};
    }
  }

  /** Listing a set of keys starts with its best key. */
  lemma ListingHead(keys: set<real>, b: real)
    requires b !in keys && forall x :: x in keys ==> b <= x
    ensures Listing(keys + {b}) == [b] + Listing(keys)
  {
    var tail := Listing(keys);
    forall i | 0 <= i < |tail|
      ensures tail[i] in tail && b < tail[i]
    {
    }
    assert Lists([b] + tail, keys + {b});
    ListingUnique([b] + tail, Listing(keys + {b}), keys + {b});
  }

  /** The list of the top `n` starts with the best level, then lists the rest. */
  lemma TopListHead<L>(side: map<real, L>, n: nat, b: real)
    requires n >= 1 && b in side && forall x :: x in side ==> b <= x
    ensures TopList(side, n) == [side[b]] + TopList(side - {b}, n - 1)
  {
    var rest := side - {b};
    assert rest.Keys == side.Keys - {b};
    TopKeysHead(side.Keys, n, b);
    var keys := TopKeys(rest.Keys, n - 1);
    ListingHead(keys, b);
    ListedKeys(keys);
    SameLevelsAt(side, rest, Listing(keys));
    assert ([b] + Listing(keys))[1..] == Listing(keys);
  }

  lemma NothingLeftToList<L>(side: map<real, L>, n: nat)
    requires side == map[] || n == 0
    ensures TopList(side, n) == []
  {
    var keys := TopKeys(side.Keys, n);
    assert keys == {};
    ListingUnique(Listing(keys), [], keys);
  }

  lemma {:induction false} ListingLength(s: seq<real>, keys: set<real>)
    requires Lists(s, keys)
    ensures |s| == |keys|
    decreases |s|
  {
    if s == [] {
      forall x | x in keys
        ensures false
      {
      }
      NoElements(keys);
    } else {
      var w := s[|s| - 1];
      assert w in s && s == s[..|s| - 1] + [w];
      ListingLength(s[..|s| - 1], keys - {w});
    }
  }
}
