/**
The order in which named queries end up in the index: insertion from the far
end, the independent definition of a stable sort, and the inversions that
price it.
*/
module StableSort {
  import opened CStrings

  datatype Pair = Pair(key: string, value: string)

  /** Insert from the right end, passing over keys strictly larger than the new one. */
  function Insert(s: seq<Pair>, p: Pair): seq<Pair> {
    if s == [] || !Less(p.key, s[|s| - 1].key) then s + [p]
    else Insert(s[..|s| - 1], p) + [s[|s| - 1]]
  }

  /** The pairs inserted one after the other, in order. */
  function InsertAll(ps: seq<Pair>): seq<Pair> {
    if ps == [] then [] else Insert(InsertAll(ps[..|ps| - 1]), ps[|ps| - 1])
  }

  ghost predicate Sorted(s: seq<Pair>) {
    forall i, j | 0 <= i < j < |s| :: !Less(s[j].key, s[i].key)
  }

  /** The pairs named `key`, in order. */
  function WithKey(s: seq<Pair>, key: string): seq<Pair> {
    if s == [] then []
    else WithKey(s[..|s| - 1], key) + (if s[|s| - 1].key == key then [s[|s| - 1]] else [])
  }

  /** `output` is sorted and keeps, for each name, the pairs of `input` in their order. */
  ghost predicate IsStableSort(input: seq<Pair>, output: seq<Pair>) {
    Sorted(output) && forall key :: WithKey(output, key) == WithKey(input, key)
  }

  ghost predicate DistinctKeys(s: seq<Pair>) {
    forall i, j | 0 <= i < j < |s| :: s[i].key != s[j].key
  }

  /** The plain association list: the first value configured under `key`. */
  function Assoc(s: seq<Pair>, key: string): CharPtr {
    if s == [] then Null
    else if s[0].key == key then Str(s[0].value)
    else Assoc(s[1..], key)
  }

  // ---- Insertion ----

  /** Where a scan from the right stops: the last position not greater than `key`, or -1. */
  function ScanStop(s: seq<Pair>, key: string): int {
    if s == [] then -1
    else if Less(key, s[|s| - 1].key) then ScanStop(s[..|s| - 1], key)
    else |s| - 1
  }

  /** One element `x` put in at position `h`. */
  function OpenAt<T>(s: seq<T>, h: nat, x: T): (r: seq<T>)
    requires h <= |s|
    ensures |r| == |s| + 1
  {
    if h == |s| then s + [x] else OpenAt(s[..|s| - 1], h, x) + [s[|s| - 1]]
  }

  lemma {:induction false} OpenAtIndex<T>(s: seq<T>, h: nat, x: T)
    requires h <= |s|
    ensures OpenAt(s, h, x)[h] == x
    ensures forall j | 0 <= j < h :: OpenAt(s, h, x)[j] == s[j]
    ensures forall j | h < j <= |s| :: OpenAt(s, h, x)[j] == s[j - 1]
  {
    if h < |s| {
      OpenAtIndex(s[..|s| - 1], h, x);
    }
  }

  lemma {:induction false} ScanStopMeaning(s: seq<Pair>, key: string)
    ensures var i := ScanStop(s, key);
            && -1 <= i < |s|
            && (forall j | i < j < |s| :: Less(key, s[j].key))
            && (i >= 0 ==> !Less(key, s[i].key))
  {
    if s != [] && Less(key, s[|s| - 1].key) {
      ScanStopMeaning(s[..|s| - 1], key);
    }
  }

  /** Insertion puts the new pair just right of where the scan stops. */
  lemma {:induction false} InsertAtStop(s: seq<Pair>, p: Pair)
    ensures -1 <= ScanStop(s, p.key) < |s|
    ensures Insert(s, p) == OpenAt(s, ScanStop(s, p.key) + 1, p)
  {
    if s != [] && Less(p.key, s[|s| - 1].key) {
      InsertAtStop(s[..|s| - 1], p);
    }
  }

  lemma InsertKeepsSorted(s: seq<Pair>, p: Pair)
    requires Sorted(s)
    ensures Sorted(Insert(s, p))
  {
    var i := ScanStop(s, p.key);
    ScanStopMeaning(s, p.key);
    InsertAtStop(s, p);
    OpenAtIndex(s, i + 1, p);
    forall a, b | 0 <= a < b < |s| + 1 ensures !Less(Insert(s, p)[b].key, Insert(s, p)[a].key) {
      if b == i + 1 {
        if a < i { LessOrEqualBefore(s, i, a, p.key); }
      } else if a == i + 1 {
        LessIsStrictTotalOrder(p.key, s[b - 1].key, p.key);
      }
    }
  }

  lemma LessOrEqualBefore(s: seq<Pair>, i: nat, a: nat, key: string)
    requires Sorted(s) && a < i < |s| && !Less(key, s[i].key)
    ensures !Less(key, s[a].key)
  {
    LessThrough(s[a].key, s[i].key, key);
  }

  lemma {:induction false} InsertKeepsOrderOfEquals(s: seq<Pair>, p: Pair, key: string)
    ensures WithKey(Insert(s, p), key) == WithKey(s + [p], key)
  {
    assert (s + [p])[..|s|] == s;
    if s != [] && Less(p.key, s[|s| - 1].key) {
      var init, last := s[..|s| - 1], s[|s| - 1];
      InsertKeepsOrderOfEquals(init, p, key);
      assert (init + [p])[..|init|] == init;
      assert (Insert(init, p) + [last])[..|Insert(init, p)|] == Insert(init, p);
      LessIsStrictTotalOrder(p.key, last.key, p.key);
    }
  }

  /** Inserting every pair in turn is a stable sort. */
  lemma {:induction false} InsertAllIsStableSort(ps: seq<Pair>)
    ensures IsStableSort(ps, InsertAll(ps))
  {
    if ps != [] {
      var init, last := ps[..|ps| - 1], ps[|ps| - 1];
      InsertAllIsStableSort(init);
      InsertKeepsSorted(InsertAll(init), last);
      forall key ensures WithKey(InsertAll(ps), key) == WithKey(ps, key) {
        InsertKeepsOrderOfEquals(InsertAll(init), last, key);
        assert (InsertAll(init) + [last])[..|InsertAll(init)|] == InsertAll(init);
      }
    }
  }

  lemma InsertAllLength(ps: seq<Pair>)
    ensures |InsertAll(ps)| == |ps|
  {
    InsertAllIsStableSort(ps);
    StableSortIsPermutation(ps, InsertAll(ps));
  }

  // ---- What a stable sort is ----

  lemma {:induction false} WithKeyMembers(s: seq<Pair>, key: string, p: Pair)
    ensures p in WithKey(s, key) <==> p in s && p.key == key
  {
    if s != [] {
      WithKeyMembers(s[..|s| - 1], key, p);
      assert s == s[..|s| - 1] + [s[|s| - 1]];
    }
  }

  lemma {:induction false} WithKeyCounts(s: seq<Pair>, p: Pair)
    ensures multiset(WithKey(s, p.key))[p] == multiset(s)[p]
  {
    if s != [] {
      WithKeyCounts(s[..|s| - 1], p);
      assert s == s[..|s| - 1] + [s[|s| - 1]];
    }
  }

  /** A stable sort is a permutation. */
  lemma StableSortIsPermutation(input: seq<Pair>, output: seq<Pair>)
    requires IsStableSort(input, output)
    ensures multiset(output) == multiset(input) && |output| == |input|
  {
    forall p: Pair ensures multiset(output)[p] == multiset(input)[p] {
      WithKeyCounts(output, p);
      WithKeyCounts(input, p);
      assert WithKey(output, p.key) == WithKey(input, p.key);
    }
    assert multiset(output) == multiset(input);
    assert |multiset(output)| == |output| && |multiset(input)| == |input|;
  }

  lemma SnocInjective<T>(s: seq<T>, a: T, t: seq<T>, b: T)
    requires s + [a] == t + [b]
    ensures s == t && a == b
  {
    assert (s + [a])[|s|] == a && (t + [b])[|t|] == b;
    assert s == (s + [a])[..|s|] && t == (t + [b])[..|t|];
  }

  lemma LastKeyIsLargest(s: seq<Pair>, t: seq<Pair>)
    requires Sorted(s) && s != [] && t != []
    requires forall key :: WithKey(s, key) == WithKey(t, key)
    ensures !Less(s[|s| - 1].key, t[|t| - 1].key)
  {
    var last := t[|t| - 1];
    WithKeyMembers(t, last.key, last);
    WithKeyMembers(s, last.key, last);
    assert last in s;
    LessIsStrictTotalOrder(last.key, last.key, last.key);
  }

  /** There is only one stable sort of a list: the order of the index is determined. */
  lemma {:induction false} StableSortIsUnique(s: seq<Pair>, t: seq<Pair>)
    requires Sorted(s) && Sorted(t)
    requires forall key :: WithKey(s, key) == WithKey(t, key)
    ensures s == t
    decreases |s|
  {
    if s == [] && t == [] {
    } else if s == [] || t == [] {
      var last := if s == [] then t[|t| - 1] else s[|s| - 1];
      WithKeyMembers(s, last.key, last);
      WithKeyMembers(t, last.key, last);
    } else {
      var s', t' := s[..|s| - 1], t[..|t| - 1];
      var a, b := s[|s| - 1], t[|t| - 1];
      LastKeyIsLargest(s, t);
      LastKeyIsLargest(t, s);
      LessIsStrictTotalOrder(a.key, b.key, a.key);
      assert a.key == b.key;
      assert WithKey(s, a.key) == WithKey(t, a.key);
      SnocInjective(WithKey(s', a.key), a, WithKey(t', a.key), b);
      forall key ensures WithKey(s', key) == WithKey(t', key) {
        if key != a.key {
          assert WithKey(s, key) == WithKey(s', key) + [] == WithKey(s', key);
          assert WithKey(t, key) == WithKey(t', key) + [] == WithKey(t', key);
        }
      }
      StableSortIsUnique(s', t');
      assert s == s' + [a] && t == t' + [b];
    }
  }

  // ---- Agreement with the association list ----

  /** The association list misses exactly the names it does not hold; distinct names leave no choice of value. */
  lemma AssocMeaning(s: seq<Pair>, key: string)
    ensures Assoc(s, key).Null? <==> WithKey(s, key) == []
    ensures DistinctKeys(s) ==> forall p | p in s && p.key == key :: Assoc(s, key) == Str(p.value)
  {
    if Assoc(s, key).Str? {
      var found := Pair(key, Assoc(s, key).text);
      AssocFinds(s, key);
      WithKeyMembers(s, key, found);
      var i :| 0 <= i < |s| && s[i] == found;
      forall p | DistinctKeys(s) && p in s && p.key == key ensures Assoc(s, key) == Str(p.value) {
        var j :| 0 <= j < |s| && s[j] == p;
        assert i == j;
      }
    } else {
      AssocMisses(s, key);
      if WithKey(s, key) != [] {
        WithKeyMembers(s, key, WithKey(s, key)[0]);
      }
    }
  }

  lemma {:induction false} AssocMisses(s: seq<Pair>, key: string)
    requires Assoc(s, key).Null?
    ensures forall p | p in s :: p.key != key
  {
    if s != [] {
      AssocMisses(s[1..], key);
      assert s == [s[0]] + s[1..];
    }
  }

  lemma {:induction false} AssocFinds(s: seq<Pair>, key: string)
    requires Assoc(s, key).Str?
    ensures Pair(key, Assoc(s, key).text) in s
  {
    if s[0].key != key {
      AssocFinds(s[1..], key);
    } else {
      assert s[0] == Pair(key, s[0].value);
    }
  }

  // ---- Inversions ----

  /** How many entries have a name strictly greater than `key`. */
  function CountGreater(s: seq<Pair>, key: string): nat {
    if s == [] then 0
    else CountGreater(s[..|s| - 1], key) + (if Less(key, s[|s| - 1].key) then 1 else 0)
  }

  /** How many entries have a name strictly smaller than `key`. */
  function CountSmaller(s: seq<Pair>, key: string): nat {
    if s == [] then 0
    else CountSmaller(s[..|s| - 1], key) + (if Less(s[|s| - 1].key, key) then 1 else 0)
  }

  /** The pairs of positions, in config order, whose later name is strictly smaller. */
  ghost function InversionPairs(ps: seq<Pair>): set<(int, int)> {
    set i, j | 0 <= i < |ps| && i < j < |ps| && Less(ps[j].key, ps[i].key) :: (i, j)
  }

  lemma {:induction false} CountsOfInsert(s: seq<Pair>, p: Pair, key: string)
    ensures CountGreater(Insert(s, p), key) == CountGreater(s + [p], key)
    ensures CountSmaller(Insert(s, p), key) == CountSmaller(s + [p], key)
  {
    assert (s + [p])[..|s|] == s;
    if s != [] && Less(p.key, s[|s| - 1].key) {
      var init, last := s[..|s| - 1], s[|s| - 1];
      CountsOfInsert(init, p, key);
      assert (init + [p])[..|init|] == init;
      assert (Insert(init, p) + [last])[..|Insert(init, p)|] == Insert(init, p);
    }
  }

  lemma {:induction false} CountsOfInsertAll(ps: seq<Pair>, key: string)
    ensures CountGreater(InsertAll(ps), key) == CountGreater(ps, key)
    ensures CountSmaller(InsertAll(ps), key) == CountSmaller(ps, key)
  {
    if ps != [] {
      var init, last := ps[..|ps| - 1], ps[|ps| - 1];
      CountsOfInsertAll(init, key);
      CountsOfInsert(InsertAll(init), last, key);
      assert (InsertAll(init) + [last])[..|InsertAll(init)|] == InsertAll(init);
    }
  }

  /** In a sorted list the greater names are exactly those a right-to-left scan passes. */
  lemma {:induction false} CountGreaterAfterStop(s: seq<Pair>, key: string)
    requires Sorted(s)
    ensures CountGreater(s, key) == |s| - 1 - ScanStop(s, key)
  {
    if s != [] {
      var init := s[..|s| - 1];
      CountGreaterAfterStop(init, key);
      if !Less(key, s[|s| - 1].key) {
        ScanStopMeaning(init, key);
        if |s| > 1 { LessOrEqualBefore(s, |s| - 1, |s| - 2, key); }
      }
    }
  }

  /** Where the scan for `key` stops in the index tells how many configured names are greater. */
  lemma StopOfInsertAll(ps: seq<Pair>, key: string)
    ensures |InsertAll(ps)| == |ps|
    ensures -1 <= ScanStop(InsertAll(ps), key) < |ps|
    ensures CountGreater(ps, key) == |ps| - 1 - ScanStop(InsertAll(ps), key)
  {
    InsertAllLength(ps);
    InsertAllIsStableSort(ps);
    CountsOfInsertAll(ps, key);
    CountGreaterAfterStop(InsertAll(ps), key);
    ScanStopMeaning(InsertAll(ps), key);
  }

  lemma {:induction false} CountsCover(s: seq<Pair>, key: string)
    ensures CountSmaller(s, key) + CountGreater(s, key) + |WithKey(s, key)| == |s|
  {
    if s != [] {
      CountsCover(s[..|s| - 1], key);
      LessIsStrictTotalOrder(s[|s| - 1].key, key, key);
    }
  }

  /** What one comparison at `mid` of a sorted list tells about the names on either side. */
  lemma {:induction false} CountsFromMiddle(s: seq<Pair>, mid: nat, key: string)
    requires Sorted(s) && mid < |s|
    ensures Less(key, s[mid].key) ==> CountGreater(s, key) >= |s| - mid
    ensures Less(s[mid].key, key) ==> CountSmaller(s, key) >= mid + 1
  {
    var init, last := s[..|s| - 1], s[|s| - 1];
    if mid < |s| - 1 {
      CountsFromMiddle(init, mid, key);
      LessThrough(key, s[mid].key, last.key);
    } else if mid > 0 {
      CountsFromMiddle(init, mid - 1, key);
      LessThrough(s[mid - 1].key, last.key, key);
    }
  }

  /** The positions before the last entry whose name is greater than `key`, each paired with `n`. */
  ghost function GreaterPositions(s: seq<Pair>, key: string, n: int): set<(int, int)> {
    set i | 0 <= i < |s| && Less(key, s[i].key) :: (i, n)
  }

  lemma {:induction false} GreaterPositionsCount(s: seq<Pair>, key: string, n: int)
    ensures |GreaterPositions(s, key, n)| == CountGreater(s, key)
  {
    if s != [] {
      var init := s[..|s| - 1];
      GreaterPositionsCount(init, key, n);
      var rest := GreaterPositions(init, key, n);
      if Less(key, s[|s| - 1].key) {
        assert GreaterPositions(s, key, n) == rest + {(|s| - 1, n)};
      } else {
        assert GreaterPositions(s, key, n) == rest;
      }
    }
  }

  lemma IsInversion(ps: seq<Pair>, x: (int, int))
    ensures x in InversionPairs(ps) <==> 0 <= x.0 < x.1 < |ps| && Less(ps[x.1].key, ps[x.0].key)
  {
    assert x == (x.0, x.1);
  }

  lemma IsGreaterPosition(s: seq<Pair>, key: string, n: int, x: (int, int))
    ensures x in GreaterPositions(s, key, n) <==> 0 <= x.0 < |s| && Less(key, s[x.0].key) && x.1 == n
  {
    assert x == (x.0, x.1);
  }

  /** One more configured entry adds an inversion for each earlier name that is greater. */
  lemma InversionsGrow(ps: seq<Pair>, p: Pair)
    ensures |InversionPairs(ps + [p])| == |InversionPairs(ps)| + CountGreater(ps, p.key)
  {
    var added := GreaterPositions(ps, p.key, |ps|);
    GreaterPositionsCount(ps, p.key, |ps|);
    forall x: (int, int) ensures x in InversionPairs(ps + [p]) <==> x in InversionPairs(ps) || x in added {
      IsInversion(ps, x);
      IsInversion(ps + [p], x);
      IsGreaterPosition(ps, p.key, |ps|, x);
    }
    assert InversionPairs(ps + [p]) == InversionPairs(ps) + added;
    forall x | x in added ensures x !in InversionPairs(ps) {
      IsInversion(ps, x);
      IsGreaterPosition(ps, p.key, |ps|, x);
    }
  }

  /** The same number, counted entry by entry. */
  function Inversions(ps: seq<Pair>): nat {
    if ps == [] then 0
    else Inversions(ps[..|ps| - 1]) + CountGreater(ps[..|ps| - 1], ps[|ps| - 1].key)
  }

  lemma {:induction false} InversionsArePairs(ps: seq<Pair>)
    ensures Inversions(ps) == |InversionPairs(ps)|
  {
    if ps == [] {
      assert InversionPairs(ps) == {};
    } else {
      InversionsArePairs(ps[..|ps| - 1]);
      InversionsGrow(ps[..|ps| - 1], ps[|ps| - 1]);
      assert ps == ps[..|ps| - 1] + [ps[|ps| - 1]];
    }
  }
}
