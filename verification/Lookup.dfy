/** Sorting by a 64-bit key and searching by it: what the symbolizer relies on
    from the standard library, and the linear scan it stands for. */
module Lookup {
  import opened Words

  function Keys<T>(s: seq<T>, key: T -> u64): (ks: seq<u64>)
    ensures |ks| == |s| && forall i | 0 <= i < |s| :: ks[i] == key(s[i])
  {
    seq(|s|, i requires 0 <= i < |s| => key(s[i]))
  }

  predicate Ascending(ks: seq<u64>) {
    forall i, j | 0 <= i < j < |ks| :: ks[i] <= ks[j]
  }

  predicate StrictlyAscending(ks: seq<u64>) {
    forall i, j | 0 <= i < j < |ks| :: ks[i] < ks[j]
  }

  // ----- Stable sorting -----

  /** `e` put after the last element whose key is not larger. */
  function Insert<T>(s: seq<T>, e: T, key: T -> u64): (r: seq<T>)
    ensures |r| == |s| + 1
  {
    if s == [] || key(s[|s| - 1]) <= key(e) then s + [e]
    else Insert(s[..|s| - 1], e, key) + [s[|s| - 1]]
  }

  function StableSort<T>(s: seq<T>, key: T -> u64): (r: seq<T>)
    ensures |r| == |s|
  {
    if s == [] then [] else Insert(StableSort(s[..|s| - 1], key), s[|s| - 1], key)
  }

  /** The elements with key `k`, in their order. */
  function WithKey<T>(s: seq<T>, key: T -> u64, k: u64): seq<T> {
    if s == [] then []
    else
      var rest := WithKey(s[..|s| - 1], key, k);
      if key(s[|s| - 1]) == k then rest + [s[|s| - 1]] else rest
  }

  /** Ascending keys, and the elements of each key in the order of `s`. */
  ghost predicate StablySorted<T>(r: seq<T>, s: seq<T>, key: T -> u64) {
    Ascending(Keys(r, key)) && forall k: u64 :: WithKey(r, key, k) == WithKey(s, key, k)
  }

  lemma {:induction false} InsertKeeps<T>(s: seq<T>, e: T, key: T -> u64, k: u64)
    ensures WithKey(Insert(s, e, key), key, k) == WithKey(s, key, k) + (if key(e) == k then [e] else [])
  {
    var r := Insert(s, e, key);
    var n := |s| - 1;
    if s == [] || key(s[n]) <= key(e) {
      assert r[..|s|] == s;
    } else {
      InsertKeeps(s[..n], e, key, k);
      assert r[..n + 1] == Insert(s[..n], e, key);
    }
  }

  lemma {:induction false} InsertAscends<T>(s: seq<T>, e: T, key: T -> u64)
    requires Ascending(Keys(s, key))
    ensures Ascending(Keys(Insert(s, e, key), key))
    ensures var r := Insert(s, e, key); key(r[|s|]) == key(e) || (s != [] && key(r[|s|]) == key(s[|s| - 1]) > key(e))
  {
    var ks, r := Keys(s, key), Insert(s, e, key);
    var n := |s| - 1;
    if s == [] || key(s[n]) <= key(e) {
      assert forall i | 0 <= i < |s| :: ks[i] <= ks[n];
    } else {
      assert Keys(s[..n], key) == ks[..n];
      InsertAscends(s[..n], e, key);
      var front := Insert(s[..n], e, key);
      assert Ascending(Keys(front, key)) && Keys(front, key)[n] <= ks[n];
      assert forall i | 0 <= i < n + 1 :: Keys(r, key)[i] == Keys(front, key)[i];
    }
  }

  lemma {:induction false} StableSortSorts<T>(s: seq<T>, key: T -> u64)
    ensures StablySorted(StableSort(s, key), s, key)
  {
    if s != [] {
      var front, last := s[..|s| - 1], s[|s| - 1];
      StableSortSorts(front, key);
      InsertAscends(StableSort(front, key), last, key);
      forall k: u64 ensures WithKey(StableSort(s, key), key, k) == WithKey(s, key, k) {
        InsertKeeps(StableSort(front, key), last, key, k);
      }
    }
  }

  lemma {:induction false} InsertMembers<T>(s: seq<T>, e: T, key: T -> u64, x: T)
    ensures x in Insert(s, e, key) <==> x in s || x == e
  {
    var n := |s| - 1;
    if s != [] && key(s[n]) > key(e) {
      InsertMembers(s[..n], e, key, x);
      assert s == s[..n] + [s[n]];
    }
  }

  /** Sorting neither loses nor adds an element. */
  lemma {:induction false} SortedMembers<T>(s: seq<T>, key: T -> u64, x: T)
    ensures x in StableSort(s, key) <==> x in s
  {
    if s != [] {
      var n := |s| - 1;
      SortedMembers(s[..n], key, x);
      InsertMembers(StableSort(s[..n], key), s[n], key, x);
      assert s == s[..n] + [s[n]];
    }
  }

  lemma {:induction false} WithKeyOccurs<T>(s: seq<T>, key: T -> u64, k: u64) returns (i: nat)
    requires WithKey(s, key, k) != []
    ensures i < |s| && key(s[i]) == k
  {
    var n := |s| - 1;
    if key(s[n]) == k {
      i := n;
    } else {
      i := WithKeyOccurs(s[..n], key, k);
    }
  }

  lemma LastHasKey<T>(s: seq<T>, key: T -> u64)
    ensures s != [] ==> WithKey(s, key, key(s[|s| - 1])) != []
  {
  }

  /** Two ascending lists with the same elements, in the same order, for each
      key are equal: a stable sort has exactly one result. */
  lemma {:induction false} StablySortedUnique<T>(r: seq<T>, t: seq<T>, s: seq<T>, key: T -> u64)
    requires StablySorted(r, s, key) && StablySorted(t, s, key)
    ensures r == t
  {
    if r == [] || t == [] {
      LastHasKey(r, key);
      LastHasKey(t, key);
    } else {
      var m, n := |r| - 1, |t| - 1;
      var k, l := key(r[m]), key(t[n]);
      assert WithKey(r, key, k) == WithKey(t, key, k) && WithKey(r, key, l) == WithKey(t, key, l);
      var i := WithKeyOccurs(t, key, k);
      var j := WithKeyOccurs(r, key, l);
      assert Keys(t, key)[i] <= Keys(t, key)[n] && Keys(r, key)[j] <= Keys(r, key)[m];
      assert k == l;
      var same := WithKey(r, key, k);
      assert same[|same| - 1] == r[m] && same[|same| - 1] == t[n];
      forall q: u64 ensures WithKey(r[..m], key, q) == WithKey(t[..n], key, q) {
        assert WithKey(r, key, q) == WithKey(t, key, q);
        if q == k {
          assert WithKey(r[..m], key, q) == WithKey(r, key, q)[..|WithKey(r, key, q)| - 1];
          assert WithKey(t[..n], key, q) == WithKey(t, key, q)[..|WithKey(t, key, q)| - 1];
        }
      }
      assert Keys(r[..m], key) == Keys(r, key)[..m] && Keys(t[..n], key) == Keys(t, key)[..n];
      StablySortedUnique(r[..m], t[..n], r[..m], key);
      assert r == r[..m] + [r[m]] && t == t[..n] + [t[n]];
    }
  }

  // ----- Searching -----

  /** The two answers of a binary search by key. */
  datatype Probe = Found(at: nat) | Missing(at: nat)

  type Search = (seq<u64>, u64) -> Probe

  /** What the standard library promises of one search: any position of the
      key, or the one position where it can be inserted. */
  ghost predicate Located(ks: seq<u64>, x: u64, p: Probe) {
    match p
    case Found(i) => i < |ks| && ks[i] == x
    case Missing(i) =>
      && i <= |ks|
      && (forall j | 0 <= j < i :: ks[j] < x)
      && (forall j | i <= j < |ks| :: ks[j] > x)
  }

  /** A search that keeps the promise on every ascending list, whichever of
      several equal keys it stops at. */
  ghost predicate ValidSearch(search: Search) {
    forall ks: seq<u64>, x: u64 | Ascending(ks) :: Located(ks, x, search(ks, x))
  }

  /** The linear scan from the end: the last index whose key is at most `x`. */
  function LastAtMost(ks: seq<u64>, x: u64): (r: Option<nat>)
    ensures match r
            case Some(i) => i < |ks| && ks[i] <= x && forall j | i < j < |ks| :: ks[j] > x
            case None => forall j | 0 <= j < |ks| :: ks[j] > x
  {
    if ks == [] then None
    else if ks[|ks| - 1] <= x then Some(|ks| - 1)
    else LastAtMost(ks[..|ks| - 1], x)
  }

  /** The index a lookup goes on with: the found one, or the one before the gap. */
  function AtOrBefore(p: Probe): Option<nat> {
    match p
    case Found(i) => Some(i)
    case Missing(i) => if i > 0 then Some(i - 1) else None
  }

  /** Binary search finds what the linear scan finds, up to the choice among
      equal keys, and exactly that unless it stopped early among them. */
  lemma SearchRefinesScan(search: Search, ks: seq<u64>, x: u64)
    requires ValidSearch(search) && Ascending(ks)
    ensures match LastAtMost(ks, x)
            case None => AtOrBefore(search(ks, x)) == None
            case Some(k) =>
              && AtOrBefore(search(ks, x)).Some?
              && AtOrBefore(search(ks, x)).value <= k
              && ks[AtOrBefore(search(ks, x)).value] == ks[k]
              && (AtOrBefore(search(ks, x)).value != k ==> ks[k] == x)
  {
    assert Located(ks, x, search(ks, x));
    match search(ks, x)
    case Found(i) =>
    case Missing(i) =>
      if i > 0 {
        assert ks[i - 1] < x;
      }
  }

  /** The two extreme choices among equal keys. */
  function First(ks: seq<u64>, x: u64): (p: Probe)
    ensures p.at <= |ks|
    ensures forall j | 0 <= j < p.at :: ks[j] < x
    ensures p.Found? ==> p.at < |ks| && ks[p.at] == x
    ensures p.Missing? && p.at < |ks| ==> ks[p.at] > x
  {
    if ks == [] then Missing(0)
    else
      var p := First(ks[..|ks| - 1], x);
      if p.Found? || p.at < |ks| - 1 then p
      else if ks[|ks| - 1] == x then Found(|ks| - 1)
      else if ks[|ks| - 1] > x then p
      else Missing(|ks|)
  }

  function Last(ks: seq<u64>, x: u64): Probe {
    match LastAtMost(ks, x)
    case None => Missing(0)
    case Some(i) => if ks[i] == x then Found(i) else Missing(i + 1)
  }

  /** The promise can be kept in more than one way. */
  lemma BothEndsAreValid()
    ensures ValidSearch(First) && ValidSearch(Last)
  {
  }
}
