/**
The named-query index of src/pg_config.c: two parallel arrays of nullable
strings filled by a hole-shifting insertion and read by binary search.
*/
module QueryIndex {
  import opened CStrings
  import opened StableSort

  /** A libconfig setting; only the kinds the loader tells apart. */
  datatype Setting = Setting(name: string, body: Body)
  datatype Body = Value(sql: string) | Group(members: seq<Setting>) | Other

  /** The two arrays at one moment. */
  datatype Slots = Slots(keys: seq<CharPtr>, values: seq<CharPtr>)

  // ---- The shape of the arrays ----

  /** The names of `s` in the first of `n` slots, NULL in every later one. */
  function KeySlots(s: seq<Pair>, n: nat): (r: seq<CharPtr>)
    ensures |r| == n
  {
    if n == 0 then []
    else KeySlots(s, n - 1) + [if n - 1 < |s| then Str(s[n - 1].key) else Null]
  }

  /** The queries of `s` in the first of `n` slots, NULL in every later one. */
  function ValueSlots(s: seq<Pair>, n: nat): (r: seq<CharPtr>)
    ensures |r| == n
  {
    if n == 0 then []
    else ValueSlots(s, n - 1) + [if n - 1 < |s| then Str(s[n - 1].value) else Null]
  }

  function Filled(s: seq<Pair>, n: nat): Slots {
    Slots(KeySlots(s, n), ValueSlots(s, n))
  }

  lemma {:induction false} FilledAt(s: seq<Pair>, n: nat, i: nat)
    requires i < n
    ensures KeySlots(s, n)[i] == (if i < |s| then Str(s[i].key) else Null)
    ensures ValueSlots(s, n)[i] == (if i < |s| then Str(s[i].value) else Null)
  {
    if i < n - 1 {
      FilledAt(s, n - 1, i);
    }
  }

  function Opened(slots: Slots, h: nat): Slots
    requires h <= |slots.keys| && h <= |slots.values|
  {
    Slots(OpenAt(slots.keys, h, Null), OpenAt(slots.values, h, Null))
  }

  /** Both arrays at each of the `k + 1` moments of a hole moving left from the far end. */
  function HoleTrace(slots: Slots, k: nat): (r: seq<Slots>)
    requires |slots.keys| == |slots.values| >= k
    ensures |r| == k + 1
  {
    if k == 0 then [Opened(slots, |slots.keys|)]
    else HoleTrace(slots, k - 1) + [Opened(slots, |slots.keys| - k)]
  }

  /** Shifting the slot left of the hole into the hole moves the hole one to the left. */
  lemma ShiftMovesHole<T>(s: seq<T>, h: nat, x: T)
    requires 0 < h <= |s|
    ensures OpenAt(s, h, x)[h] == x && OpenAt(s, h, x)[h - 1] == s[h - 1]
    ensures OpenAt(s, h, x)[h := s[h - 1]][h - 1 := x] == OpenAt(s, h - 1, x)
  {
    OpenAtIndex(s, h, x);
    OpenAtIndex(s, h - 1, x);
  }

  /** The slot left of the hole is untouched. */
  lemma LeftOfHole(keys: seq<CharPtr>, h: nat)
    requires |keys| >= h > 0
    ensures OpenAt(keys, h, Null)[h - 1] == keys[h - 1]
  {
    ShiftMovesHole(keys, h, Null);
  }

  lemma FilledSplit(s: seq<Pair>, n: nat)
    requires |s| <= n
    ensures Filled(s, n + 1) == Opened(Filled(s, n), n)
  {
  }

  /** Filling the hole stores the pair between its neighbours. */
  lemma FilledOpened(s: seq<Pair>, n: nat, h: nat, p: Pair)
    requires h <= |s| <= n
    ensures OpenAt(KeySlots(s, n), h, Null)[h := Str(p.key)] == KeySlots(OpenAt(s, h, p), n + 1)
    ensures OpenAt(ValueSlots(s, n), h, Null)[h := Str(p.value)] == ValueSlots(OpenAt(s, h, p), n + 1)
  {
    var t := OpenAt(s, h, p);
    var keys := OpenAt(KeySlots(s, n), h, Null)[h := Str(p.key)];
    var values := OpenAt(ValueSlots(s, n), h, Null)[h := Str(p.value)];
    OpenAtIndex(s, h, p);
    OpenAtIndex(KeySlots(s, n), h, Null);
    OpenAtIndex(ValueSlots(s, n), h, Null);
    forall j | 0 <= j < n + 1 ensures keys[j] == KeySlots(t, n + 1)[j] && values[j] == ValueSlots(t, n + 1)[j] {
      FilledAt(t, n + 1, j);
      if j < h {
        FilledAt(s, n, j);
      } else if j > h {
        FilledAt(s, n, j - 1);
      }
    }
  }

  lemma {:induction false} EmptyIsFilled(n: nat)
    ensures KeySlots([], n) == seq(n, _ => Null) && ValueSlots([], n) == seq(n, _ => Null)
  {
    if n > 0 {
      EmptyIsFilled(n - 1);
    }
  }

  /** Where the loop's guard first fails among the first `n` slots, from the right; NULL slots are passed over. */
  function SlotStop(keys: seq<CharPtr>, n: nat, name: string): int
    requires n <= |keys|
  {
    if n == 0 then -1
    else if keys[n - 1] == Null || Less(name, keys[n - 1].text) then SlotStop(keys, n - 1, name)
    else n - 1
  }

  /** The scan of the slots stops at the same place as the scan of the stored pairs. */
  lemma {:induction false} SlotStopIsScanStop(s: seq<Pair>, n: nat, k: nat, name: string)
    requires |s| <= k <= n
    ensures SlotStop(KeySlots(s, n), k, name) == ScanStop(s, name)
  {
    if k > |s| {
      FilledAt(s, n, k - 1);
      SlotStopIsScanStop(s, n, k - 1, name);
    } else {
      SlotStopOfPairs(s, n, k, name);
      assert s[..k] == s;
    }
  }

  lemma {:induction false} SlotStopOfPairs(s: seq<Pair>, n: nat, k: nat, name: string)
    requires k <= |s| <= n
    ensures SlotStop(KeySlots(s, n), k, name) == ScanStop(s[..k], name)
  {
    if k > 0 {
      FilledAt(s, n, k - 1);
      SlotStopOfPairs(s, n, k - 1, name);
      assert s[..k][..k - 1] == s[..k - 1];
    }
  }

  /** The slots once every configured pair of `config` has been inserted, in `n` slots. */
  function Indexed(config: seq<Pair>, n: nat): Slots {
    Filled(InsertAll(config), n)
  }

  /** Where the scan of the slots stops: as many configured names are greater as slots were passed over. */
  lemma InsertionStop(config: seq<Pair>, n: nat, key: string)
    requires |config| <= n
    ensures var i := SlotStop(Indexed(config, n).keys, n, key);
            i == ScanStop(InsertAll(config), key) && -1 <= i < |config| && CountGreater(config, key) == |config| - 1 - i
  {
    StopOfInsertAll(config, key);
    SlotStopIsScanStop(InsertAll(config), n, n, key);
  }

  /** Dropping a pair into the hole where the scan stopped inserts it. */
  lemma InsertionStep(config: seq<Pair>, n: nat, p: Pair, h: nat)
    requires |config| <= n && h == ScanStop(InsertAll(config), p.key) + 1 <= |config|
    ensures Indexed(config, n + 1) == Opened(Indexed(config, n), n)
    ensures var hole := Opened(Indexed(config, n), h);
            Slots(hole.keys[h := Str(p.key)], hole.values[h := Str(p.value)]) == Indexed(config + [p], n + 1)
  {
    var s := InsertAll(config);
    InsertAllLength(config);
    InsertAtStop(s, p);
    FilledSplit(s, n);
    FilledOpened(s, n, h, p);
    assert (config + [p])[..|config|] == config;
  }

  /** The pairs in the slots that are not NULL, left to right. */
  function Live(slots: Slots): seq<Pair>
    requires |slots.keys| == |slots.values|
    decreases |slots.keys|
  {
    var n := |slots.keys|;
    if n == 0 then []
    else Live(Slots(slots.keys[..n - 1], slots.values[..n - 1])) + LiveAt(slots.keys[n - 1], slots.values[n - 1])
  }

  function LiveAt(key: CharPtr, value: CharPtr): seq<Pair> {
    if key.Str? && value.Str? then [Pair(key.text, value.text)] else []
  }

  lemma LiveSnoc(keys: seq<CharPtr>, values: seq<CharPtr>, k: CharPtr, v: CharPtr)
    requires |keys| == |values|
    ensures Live(Slots(keys + [k], values + [v])) == Live(Slots(keys, values)) + LiveAt(k, v)
  {
    assert (keys + [k])[..|keys|] == keys && (values + [v])[..|values|] == values;
  }

  /** A hole moving through the arrays never touches a live pair nor their order. */
  lemma {:induction false} HoleKeepsLivePairs(slots: Slots, h: nat)
    requires |slots.keys| == |slots.values| && h <= |slots.keys|
    ensures Live(Opened(slots, h)) == Live(slots)
    decreases |slots.keys|
  {
    var n := |slots.keys|;
    if h == n {
      LiveSnoc(slots.keys, slots.values, Null, Null);
    } else {
      var keys, values := slots.keys[..n - 1], slots.values[..n - 1];
      var k, v := slots.keys[n - 1], slots.values[n - 1];
      assert slots == Slots(keys + [k], values + [v]);
      HoleKeepsLivePairs(Slots(keys, values), h);
      LiveSnoc(keys, values, k, v);
      LiveSnoc(OpenAt(keys, h, Null), OpenAt(values, h, Null), k, v);
    }
  }

  /** The pairs of `s` that fall into the first `n` slots. */
  function Stored(s: seq<Pair>, n: nat): seq<Pair> {
    if n == 0 then [] else Stored(s, n - 1) + (if n - 1 < |s| then [s[n - 1]] else [])
  }

  lemma {:induction false} StoredAll(s: seq<Pair>, n: nat)
    ensures Stored(s, n) == if n < |s| then s[..n] else s
  {
    if n > 0 {
      StoredAll(s, n - 1);
    }
  }

  lemma LiveGrows(s: seq<Pair>, n: nat)
    ensures Live(Filled(s, n + 1)) == Live(Filled(s, n)) + if n < |s| then [s[n]] else []
  {
    if n < |s| {
      LiveSnoc(KeySlots(s, n), ValueSlots(s, n), Str(s[n].key), Str(s[n].value));
    } else {
      LiveSnoc(KeySlots(s, n), ValueSlots(s, n), Null, Null);
    }
  }

  lemma {:induction false} FilledPairsAreStored(s: seq<Pair>, n: nat)
    ensures Live(Filled(s, n)) == Stored(s, n)
  {
    if n > 0 {
      FilledPairsAreStored(s, n - 1);
      LiveGrows(s, n - 1);
    }
  }

  /** Reading the slots back gives the stored pairs. */
  lemma FilledPairsAreLive(s: seq<Pair>, n: nat)
    requires |s| <= n
    ensures Live(Filled(s, n)) == s
  {
    FilledPairsAreStored(s, n);
    StoredAll(s, n);
  }

  lemma {:induction false} HoleTraceAt(slots: Slots, k: nat, t: nat)
    requires |slots.keys| == |slots.values| >= k >= t
    ensures |HoleTrace(slots, k)| == k + 1
    ensures HoleTrace(slots, k)[t] == Opened(slots, |slots.keys| - t)
    decreases k
  {
    if t < k {
      HoleTraceAt(slots, k - 1, t);
    }
  }

  /**
  At every moment of an insertion the slot about to be written is NULL in both
  arrays and the other slots hold exactly the pairs stored before, in order.
  */
  lemma InsertionNeverOverwrites(config: seq<Pair>, n: nat, k: nat, t: nat)
    requires |config| <= n && t <= k <= n
    ensures var now := HoleTrace(Indexed(config, n), k)[t];
            && |now.keys| == |now.values| == n + 1
            && now.keys[n - t] == Null && now.values[n - t] == Null
            && Live(now) == InsertAll(config)
  {
    InsertAllLength(config);
    OpenAtIndex(Indexed(config, n).keys, n - t, Null);
    OpenAtIndex(Indexed(config, n).values, n - t, Null);
    HoleTraceAt(Indexed(config, n), k, t);
    FilledPairsAreLive(InsertAll(config), n);
    HoleKeepsLivePairs(Indexed(config, n), n - t);
  }

  /** Once loaded, the slots read back as the stable sort of the configured pairs, then NULL. */
  lemma LoadedIsStableSort(config: seq<Pair>)
    ensures var slots := Indexed(config, |config| + 1);
            && IsStableSort(config, Live(slots))
            && slots.keys[|config|] == Null && slots.values[|config|] == Null
  {
    InsertAllLength(config);
    InsertAllIsStableSort(config);
    FilledPairsAreLive(InsertAll(config), |config| + 1);
    FilledAt(InsertAll(config), |config| + 1, |config|);
  }

  // ---- What a configuration file means ----

  /** The first `n` members of the group are strings. */
  predicate AllText(members: seq<Setting>, n: nat)
    requires n <= |members|
  {
    n == 0 || (members[n - 1].body.Value? && AllText(members, n - 1))
  }

  function PairOf(m: Setting): Pair {
    Pair(m.name, if m.body.Value? then m.body.sql else "")
  }

  /** The (name, query) pairs of the first `n` members of a group, in file order. */
  function PairsOf(members: seq<Setting>, n: nat): (ps: seq<Pair>)
    requires n <= |members|
    ensures |ps| == n
  {
    if n == 0 then [] else PairsOf(members, n - 1) + [PairOf(members[n - 1])]
  }

  /** The pairs a setting contributes. */
  function GroupPairs(s: Setting): seq<Pair> {
    if s.body.Group? then PairsOf(s.body.members, |s.body.members|) else []
  }

  predicate LoadableGroup(s: Setting) {
    s.body.Group? && AllText(s.body.members, |s.body.members|)
  }

  predicate LoadableSetting(s: Setting) {
    s.name == "queries" && LoadableGroup(s)
  }

  /** The first `n` settings of a file can be loaded. */
  predicate LoadablePrefix(root: seq<Setting>, n: nat)
    requires n <= |root|
  {
    n == 0 || (LoadableSetting(root[n - 1]) && LoadablePrefix(root, n - 1))
  }

  predicate LoadableFile(root: seq<Setting>) {
    LoadablePrefix(root, |root|)
  }

  lemma {:induction false} AllTextAt(members: seq<Setting>, n: nat, i: nat)
    requires i < n <= |members|
    ensures AllText(members, n) ==> members[i].body.Value?
  {
    if i < n - 1 {
      AllTextAt(members, n - 1, i);
    }
  }

  lemma {:induction false} LoadablePrefixAt(root: seq<Setting>, n: nat, i: nat)
    requires i < n <= |root|
    ensures LoadablePrefix(root, n) ==> LoadableSetting(root[i])
  {
    if i < n - 1 {
      LoadablePrefixAt(root, n - 1, i);
    }
  }

  lemma {:induction false} LoadablePrefixMeaning(root: seq<Setting>, n: nat)
    requires n <= |root|
    ensures LoadablePrefix(root, n) <==> forall i | 0 <= i < n :: LoadableSetting(root[i])
  {
    if n > 0 {
      LoadablePrefixMeaning(root, n - 1);
    }
  }

  lemma {:induction false} AllTextMeaning(members: seq<Setting>, n: nat)
    requires n <= |members|
    ensures AllText(members, n) <==> forall i | 0 <= i < n :: members[i].body.Value?
  {
    if n > 0 {
      AllTextMeaning(members, n - 1);
    }
  }

  /** A file loads exactly when each of its settings is a `queries` group of strings. */
  lemma LoadableFileMeaning(root: seq<Setting>)
    ensures LoadableFile(root) <==>
            forall i | 0 <= i < |root| ::
              && root[i].name == "queries" && root[i].body.Group?
              && forall j | 0 <= j < |root[i].body.members| :: root[i].body.members[j].body.Value?
  {
    LoadablePrefixMeaning(root, |root|);
    forall i | 0 <= i < |root| && root[i].body.Group?
      ensures LoadableGroup(root[i]) <==>
              forall j | 0 <= j < |root[i].body.members| :: root[i].body.members[j].body.Value?
    {
      AllTextMeaning(root[i].body.members, |root[i].body.members|);
    }
  }

  lemma {:induction false} PairAt(members: seq<Setting>, n: nat, i: nat)
    requires i < n <= |members| && AllText(members, n)
    ensures members[i].body.Value? && PairsOf(members, n)[i] == Pair(members[i].name, members[i].body.sql)
  {
    if i < n - 1 {
      PairAt(members, n - 1, i);
    }
  }

  /** The name of a pair is the member's name, its query the member's string. */
  lemma GroupPairsMeaning(root: Setting)
    requires LoadableGroup(root)
    ensures |GroupPairs(root)| == |root.body.members|
    ensures forall i | 0 <= i < |root.body.members| ::
              && root.body.members[i].body.Value?
              && GroupPairs(root)[i].key == root.body.members[i].name
              && GroupPairs(root)[i].value == root.body.members[i].body.sql
  {
    forall i | 0 <= i < |root.body.members|
      ensures root.body.members[i].body.Value?
      ensures GroupPairs(root)[i] == Pair(root.body.members[i].name, root.body.members[i].body.sql)
    {
      PairAt(root.body.members, |root.body.members|, i);
    }
  }

  // ---- Search cost ----

  function Pow2(n: nat): nat {
    if n == 0 then 1 else 2 * Pow2(n - 1)
  }

  /** How often `w` can be halved before it reaches zero. */
  function Halvings(w: nat): nat {
    if w == 0 then 0 else 1 + Halvings(w / 2)
  }

  lemma {:induction false} HalvingsMonotone(v: nat, w: nat)
    requires v <= w
    ensures Halvings(v) <= Halvings(w)
  {
    if v > 0 {
      HalvingsMonotone(v / 2, w / 2);
    }
  }

  /** `Halvings(w)` is floor(log2 w) + 1. */
  lemma {:induction false} HalvingsIsLog(w: nat)
    requires w > 0
    ensures Pow2(Halvings(w) - 1) <= w < Pow2(Halvings(w))
  {
    if w / 2 > 0 {
      HalvingsIsLog(w / 2);
    }
  }

  /** Either half left by a probe at the midpoint has been halved once more. */
  lemma HalvingStep(bottom: nat, top: nat)
    requires bottom <= top
    ensures var mid := (bottom + top) / 2;
            && bottom <= mid <= top
            && 1 + Halvings(mid - bottom) <= Halvings(top + 1 - bottom)
            && 1 + Halvings(top - mid) <= Halvings(top + 1 - bottom)
  {
    var mid, width := (bottom + top) / 2, top + 1 - bottom;
    HalvingsMonotone(mid - bottom, width / 2);
    HalvingsMonotone(top - mid, width / 2);
  }

  /** The probes made and those that the slots from `bottom` to `top` can still cost. */
  predicate ProbeBound(n: nat, bottom: int, top: int, probes: nat) {
    bottom <= top + 1 && probes + Halvings(top + 1 - bottom) <= Halvings(n)
  }

  lemma ProbeStep(n: nat, bottom: nat, top: nat, probes: nat)
    requires bottom <= top && ProbeBound(n, bottom, top, probes)
    ensures var mid := (bottom + top) / 2;
            && bottom <= mid <= top
            && ProbeBound(n, bottom, mid - 1, probes + 1) && ProbeBound(n, mid + 1, top, probes + 1)
  {
    HalvingStep(bottom, top);
  }

  function Larger(a: int, b: int): int {
    if a > b then a else b
  }

  /** The largest sum formed so far; past the last of `n` names, all of them smaller, it is 2n - 2. */
  predicate PeakBound(n: nat, smaller: nat, bottom: nat, peak: int) {
    && peak <= (if n == 0 then 0 else 2 * n - 2)
    && (smaller == n && n > 0 && bottom >= n ==> peak == 2 * n - 2)
  }

  lemma PeakStep(n: nat, smaller: nat, bottom: nat, top: nat, mid: nat, peak: int)
    requires PeakBound(n, smaller, bottom, peak) && bottom <= top < n
    requires 2 * mid <= bottom + top <= 2 * mid + 1
    ensures PeakBound(n, smaller, bottom, Larger(bottom + top, peak))
    ensures PeakBound(n, smaller, mid + 1, Larger(bottom + top, peak))
  {
  }

  /** What one probe at slot `mid` of a loaded index reads and tells. */
  lemma ProbeTells(config: seq<Pair>, mid: nat, key: string)
    requires mid < |config|
    ensures var slots := Indexed(config, |config| + 1);
            && slots.keys[mid].Str? && slots.values[mid].Str?
            && var cmp := Strcmp(slots.keys[mid].text, key);
            && (cmp > 0 ==> CountGreater(config, key) >= |config| - mid)
            && (cmp < 0 ==> CountSmaller(config, key) >= mid + 1)
            && (cmp == 0 ==> Pair(key, slots.values[mid].text) in config)
  {
    var s := InsertAll(config);
    InsertAllIsStableSort(config);
    StableSortIsPermutation(config, s);
    FilledAt(s, |config| + 1, mid);
    LessIsLexicographic(s[mid].key, key);
    CountsFromMiddle(s, mid, key);
    CountsOfInsertAll(config, key);
    assert s[mid] in multiset(s);
    assert s[mid] == Pair(s[mid].key, s[mid].value);
  }

  lemma NullGreater(config: seq<Pair>, key: string)
    ensures CountSmaller(config, key) == |config| ==> CountGreater(config, key) == 0
  {
    CountsCover(config, key);
  }

  lemma HitIsPresence(config: seq<Pair>, key: string, value: string)
    requires Pair(key, value) in config
    ensures Assoc(config, key).Str? && (DistinctKeys(config) ==> Assoc(config, key) == Str(value))
    ensures CountSmaller(config, key) < |config|
  {
    AssocMeaning(config, key);
    CountsCover(config, key);
    WithKeyMembers(config, key, Pair(key, value));
  }

  /** A name that is configured but neither smaller nor greater does not exist. */
  lemma MissIsAbsence(config: seq<Pair>, key: string)
    requires CountSmaller(config, key) + CountGreater(config, key) >= |config|
    ensures Assoc(config, key) == Null
  {
    CountsCover(config, key);
    AssocMeaning(config, key);
  }

  // ---- Load cost ----

  /** Every insertion first shifts the NULL slots: n, then n - 1, and so on. */
  function NullShifts(inserted: nat, n: nat): int {
    if inserted == 0 then 0 else NullShifts(inserted - 1, n) + n - (inserted - 1)
  }

  lemma {:induction false} NullShiftsSum(inserted: nat, n: nat)
    ensures 2 * NullShifts(inserted, n) == inserted * (2 * n - inserted + 1)
  {
    if inserted > 0 {
      NullShiftsSum(inserted - 1, n);
      assert inserted * (2 * n - inserted + 1) == (inserted - 1) * (2 * n - inserted + 1) + (2 * n - inserted + 1);
      assert (inserted - 1) * (2 * n - inserted + 2) == (inserted - 1) * (2 * n - inserted + 1) + (inserted - 1);
    }
  }

  /** What loading `config` into `n` slots costs: the shifts past NULL slots and one for each inversion. */
  function ShiftsSoFar(config: seq<Pair>, n: nat): int {
    NullShifts(|config|, n) + Inversions(config)
  }

  function LoadCost(config: seq<Pair>): int {
    ShiftsSoFar(config, |config|)
  }

  lemma ShiftsGrow(config: seq<Pair>, p: Pair, n: nat)
    ensures ShiftsSoFar(config + [p], n) == ShiftsSoFar(config, n) + n - |config| + CountGreater(config, p.key)
  {
    assert (config + [p])[..|config|] == config;
  }

  /** Loading n queries runs the shifting loop's body n(n + 1)/2 + inversions times. */
  lemma LoadCostLaw(config: seq<Pair>)
    ensures LoadCost(config) == |config| * (|config| + 1) / 2 + |InversionPairs(config)|
  {
    var n := |config|;
    NullShiftsSum(n, n);
    InversionsArePairs(config);
    assert 2 * n - n + 1 == n + 1;
  }

  /** Drop a pair into the hole. */
  method SetSlot(keys: array<CharPtr>, values: array<CharPtr>, h: nat, key: CharPtr, value: CharPtr)
    requires keys != values && h < keys.Length && h < values.Length
    modifies keys, values
    ensures keys[..] == old(keys[..])[h := key]
    ensures values[..] == old(values[..])[h := value]
  {
    keys[h] := key;
    values[h] := value;
  }

  /** One run of the shifting loop's body: the slot on the right must be a hole in both arrays. */
  method ShiftSlot(keys: array<CharPtr>, values: array<CharPtr>, i: nat)
    requires keys != values && i + 1 < keys.Length && i + 1 < values.Length
    requires keys[i + 1] == Null && values[i + 1] == Null
    modifies keys, values
    ensures keys[..] == old(keys[..])[i + 1 := old(keys[i])][i := Null]
    ensures values[..] == old(values[..])[i + 1 := old(values[i])][i := Null]
  {
    keys[i + 1] := keys[i];
    values[i + 1] := values[i];
    keys[i] := Null;
    values[i] := Null;
  }

  /** One run of the loop body moves the hole one to the left in both arrays. */
  method ShiftHole(keys: array<CharPtr>, values: array<CharPtr>, i: nat, ghost before: Slots)
    requires keys != values && |before.keys| == |before.values| > i
    requires keys[..] == OpenAt(before.keys, i + 1, Null) && values[..] == OpenAt(before.values, i + 1, Null)
    modifies keys, values
    ensures keys[..] == OpenAt(before.keys, i, Null) && values[..] == OpenAt(before.values, i, Null)
  {
    ShiftMovesHole(before.keys, i + 1, Null);
    ShiftMovesHole(before.values, i + 1, Null);
    ShiftSlot(keys, values, i);
  }

  class NamedQueries {
    var queryKeys: array?<CharPtr>
    var queryValues: array?<CharPtr>
    var queryCount: nat
    // The pairs stored so far, in the order of the configuration file.
    ghost var config: seq<Pair>

    /** Both arrays as they are now. */
    ghost function View(): Slots
      requires queryKeys != null && queryValues != null
      reads this, queryKeys, queryValues
    {
      Slots(queryKeys[..], queryValues[..])
    }

    ghost predicate Valid()
      reads this, queryKeys, queryValues
    {
      if queryKeys == null || queryValues == null then
        queryKeys == null && queryValues == null && queryCount == 0 && config == []
      else
        && queryKeys != queryValues
        && |config| <= queryCount + 1
        && View() == Indexed(config, queryCount + 1)
    }

    /** Every configured query is in place and the binary search may run. */
    ghost predicate Loaded()
      reads this, queryKeys, queryValues
    {
      Valid() && |config| == queryCount
    }

    constructor ()
      ensures Loaded() && config == [] && queryKeys == null
    {
      queryKeys, queryValues, queryCount := null, null, 0;
      config := [];
    }

    /** Put the pair where the scan from the far end stops. */
    method AddNamedQuery(name: string, query: string) returns (ghost trace: seq<Slots>)
      requires Valid() && queryKeys != null && queryValues != null
      requires |config| <= queryCount
      modifies queryKeys, queryValues, this`config
      ensures Valid() && config == old(config) + [Pair(name, query)]
      // Every shift moves a NULL hole one slot to the left and leaves the rest as it was.
      ensures 1 <= |trace| <= queryCount + 1
      ensures trace == HoleTrace(Indexed(old(config), queryCount), |trace| - 1)
      ensures |trace| - 1 == queryCount - |old(config)| + CountGreater(old(config), name)
    {
      ghost var before, grown := Indexed(config, queryCount), config + [Pair(name, query)];
      ghost var after := Indexed(grown, queryCount + 1);
      InsertionStop(config, queryCount, name);
      InsertionStep(config, queryCount, Pair(name, query), ScanStop(InsertAll(config), name) + 1);
      var i;
      i, trace := OpenHole(name, before);
      SetSlot(queryKeys, queryValues, i + 1, Str(name), Str(query));
      assert View() == after;
      config := grown;
    }

    /**
    The shifting loop: from the far end, move NULL slots and names greater than
    `name` one to the right. `trace` records both arrays each time the loop
    guard is evaluated.
    */
    method OpenHole(name: string, ghost before: Slots) returns (i: int, ghost trace: seq<Slots>)
      requires queryKeys != null && queryValues != null && queryKeys != queryValues
      requires |before.keys| == |before.values| == queryCount && View() == Opened(before, queryCount)
      modifies queryKeys, queryValues
      ensures -1 <= i < queryCount && i == SlotStop(before.keys, queryCount, name)
      ensures View() == Opened(before, i + 1)
      ensures |trace| == queryCount - i && trace == HoleTrace(before, |trace| - 1)
    {
      var keys, values := queryKeys, queryValues;
      trace := [View()];
      i := queryCount - 1;
      if i >= 0 { LeftOfHole(before.keys, i + 1); }
      while i >= 0 && (keys[i] == Null || Strcmp(name, keys[i].text) < 0)
        invariant -1 <= i < queryCount
        invariant View() == Opened(before, i + 1)
        invariant i >= 0 ==> keys[i] == before.keys[i]
        invariant trace == HoleTrace(before, queryCount - 1 - i)
        invariant SlotStop(before.keys, queryCount, name) == SlotStop(before.keys, i + 1, name)
        modifies keys, values
      {
        ShiftHole(keys, values, i, before);
        i := i - 1;
        if i >= 0 { LeftOfHole(before.keys, i + 1); }
        trace := trace + [View()];
      }
    }

    /** Compare the key in one slot; the value beside it is what a hit returns. Neither slot is NULL. */
    method Probe(mid: nat, key: string) returns (cmp: int, value: CharPtr)
      requires Loaded() && mid < queryCount
      ensures cmp > 0 ==> CountGreater(config, key) >= queryCount - mid
      ensures cmp < 0 ==> CountSmaller(config, key) >= mid + 1
      ensures value.Str? && (cmp == 0 ==> Pair(key, value.text) in config)
    {
      ProbeTells(config, mid, key);
      assert queryKeys[mid] == View().keys[mid] && queryValues[mid] == View().values[mid];
      cmp := Strcmp(queryKeys[mid].text, key);
      value := queryValues[mid];
    }

    /**
    Binary search. `probes` counts the calls of `strcmp`; `peak` is the largest
    value of `bottom + top` that was formed.
    */
    method GetQueryByName(key: string) returns (r: CharPtr, ghost probes: nat, ghost peak: int)
      requires Loaded()
      ensures r.Str? ==> Pair(key, r.text) in config
      ensures r.Null? <==> Assoc(config, key).Null?
      ensures DistinctKeys(config) ==> r == Assoc(config, key)
      // At most floor(log2(queryCount)) + 1 comparisons.
      ensures probes <= Halvings(queryCount)
      // The largest midpoint sum is 2 * queryCount - 2, reached by a key above every name.
      ensures peak <= if queryCount == 0 then 0 else 2 * queryCount - 2
      ensures queryCount > 0 && CountSmaller(config, key) == queryCount ==> peak == 2 * queryCount - 2
      // For up to 2^30 queries it fits a signed 32-bit int.
      ensures queryCount <= 0x4000_0000 ==> peak <= 0x7fff_ffff
    {
      var top: int := queryCount - 1;
      var mid: int := 0;
      var bottom := 0;
      var cmp: int := -1;
      r, probes, peak := Null, 0, 0;
      ghost var smaller, greater := CountSmaller(config, key), CountGreater(config, key);
      NullGreater(config, key);
      while bottom <= top
        invariant 0 <= bottom <= top + 1 <= queryCount
        invariant bottom <= smaller && queryCount - 1 - top <= greater
        invariant ProbeBound(queryCount, bottom, top, probes)
        invariant PeakBound(queryCount, smaller, bottom, peak)
        decreases top + 1 - bottom
      {
        mid := (bottom + top) / 2;
        ProbeStep(queryCount, bottom, top, probes);
        PeakStep(queryCount, smaller, bottom, top, mid, peak);
        peak := Larger(bottom + top, peak);
        var value: CharPtr;
        cmp, value := Probe(mid, key);
        probes := probes + 1;
        if cmp == 0 {
          HitIsPresence(config, key, value.text);
          return value, probes, peak;
        } else if cmp > 0 {
          top := mid - 1;
        } else if cmp < 0 {
          bottom := mid + 1;
        }
      }
      MissIsAbsence(config, key);
    }

    /** Two zeroed arrays with one slot more than there are queries. */
    method Allocate(count: nat)
      modifies this
      ensures Valid() && config == [] && queryCount == count
      ensures queryKeys != null && queryValues != null && fresh(queryKeys) && fresh(queryValues)
    {
      queryCount := count;
      queryKeys := new CharPtr[queryCount + 1](_ => Null);
      queryValues := new CharPtr[queryCount + 1](_ => Null);
      config := [];
      EmptyIsFilled(queryCount + 1);
      assert queryKeys[..] == seq(queryCount + 1, _ => Null) && queryValues[..] == seq(queryCount + 1, _ => Null);
    }

    /** Load one `queries` group. `shifts` counts the runs of the shifting loop's body. */
    method ReadConfigQueries(root: Setting) returns (ok: bool, ghost shifts: nat)
      requires Valid()
      modifies this
      ensures Valid()
      ensures ok <==> LoadableGroup(root)
      ensures ok ==> Loaded() && config == GroupPairs(root)
      ensures ok ==> shifts == LoadCost(config)
      ensures !root.body.Group? ==>
        && queryKeys == old(queryKeys) && queryValues == old(queryValues)
        && queryCount == old(queryCount) && config == old(config)
    {
      shifts := 0;
      if !root.body.Group? {
        return false, 0;
      }
      Allocate(|root.body.members|);
      ok, shifts := LoadEntries(root.body.members);
    }

    /** The loop over the entries of the group, into zeroed arrays. */
    method LoadEntries(members: seq<Setting>) returns (ok: bool, ghost shifts: nat)
      requires Valid() && queryKeys != null && queryValues != null
      requires queryCount == |members| && config == []
      modifies queryKeys, queryValues, this`config
      ensures Valid() && (ok <==> AllText(members, |members|))
      ensures ok ==> config == PairsOf(members, |members|) && shifts == LoadCost(config)
    {
      shifts := 0;
      var i := 0;
      while i < queryCount
        invariant 0 <= i <= |members| && Valid()
        invariant AllText(members, i) && config == PairsOf(members, i)
        invariant shifts == ShiftsSoFar(config, queryCount)
      {
        AllTextAt(members, |members|, i);
        ghost var steps: nat;
        ok, steps := ReadEntry(members[i]);
        if !ok {
          return false, shifts;
        }
        shifts := shifts + steps;
        i := i + 1;
      }
      return true, shifts;
    }

    /** One entry of a `queries` group: a string goes into the index, anything else is refused. */
    method ReadEntry(node: Setting) returns (ok: bool, ghost steps: nat)
      requires Valid() && queryKeys != null && queryValues != null && |config| < queryCount
      modifies queryKeys, queryValues, this`config
      ensures Valid() && (ok <==> node.body.Value?)
      ensures ok ==> config == old(config) + [Pair(node.name, node.body.sql)]
      ensures ok ==> ShiftsSoFar(config, queryCount) == ShiftsSoFar(old(config), queryCount) + steps
    {
      if !node.body.Value? {
        return false, 0;
      }
      ShiftsGrow(config, Pair(node.name, node.body.sql), queryCount);
      ghost var trace := AddNamedQuery(node.name, node.body.sql);
      return true, |trace| - 1;
    }

    /** Load a whole file: every setting must be a `queries` group of strings. */
    method ReadConfig(root: seq<Setting>) returns (ok: bool)
      requires Valid()
      modifies this
      ensures Valid()
      ensures ok <==> LoadableFile(root)
      ensures ok && root != [] ==> Loaded() && config == GroupPairs(root[|root| - 1])
      ensures root == [] ==> unchanged(this)
    {
      var i := 0;
      while i < |root|
        invariant 0 <= i <= |root|
        invariant Valid()
        invariant LoadablePrefix(root, i)
        invariant i > 0 ==> Loaded() && config == GroupPairs(root[i - 1])
        invariant i == 0 ==> unchanged(this)
      {
        LoadablePrefixAt(root, |root|, i);
        ok := ReadSetting(root[i]);
        if !ok {
          return false;
        }
        i := i + 1;
      }
      return true;
    }

    /** One top-level setting. */
    method ReadSetting(node: Setting) returns (ok: bool)
      requires Valid()
      modifies this
      ensures Valid()
      ensures ok <==> LoadableSetting(node)
      ensures ok ==> Loaded() && config == GroupPairs(node)
    {
      StrncmpMeaning(node.name, "queries", 8);
      if StrncmpEqual(node.name, "queries", 8) {
        ghost var shifts: nat;
        ok, shifts := ReadConfigQueries(node);
      } else {
        ok := false;
      }
    }
  }

  /** A loaded index holds the stable sort of the configured pairs, with NULL in the last slot. */
  lemma LoadedMeaning(index: NamedQueries)
    requires index.Loaded() && index.queryKeys != null
    ensures index.queryKeys.Length == index.queryValues.Length == index.queryCount + 1
    ensures IsStableSort(index.config, Live(index.View()))
    ensures index.queryKeys[index.queryCount] == Null && index.queryValues[index.queryCount] == Null
  {
    var slots := index.View();
    LoadedIsStableSort(index.config);
    assert |slots.keys| == |slots.values| == index.queryCount + 1;
    assert index.queryKeys[index.queryCount] == slots.keys[index.queryCount];
    assert index.queryValues[index.queryCount] == slots.values[index.queryCount];
  }

  /** The association list of the pairs, in terms of their positions. */
  lemma AssocByPosition(config: seq<Pair>, key: string)
    ensures Assoc(config, key).Null? <==> forall i | 0 <= i < |config| :: config[i].key != key
    ensures DistinctKeys(config) ==>
              forall i | 0 <= i < |config| && config[i].key == key :: Assoc(config, key) == Str(config[i].value)
  {
    AssocMeaning(config, key);
    if Assoc(config, key).Null? {
      AssocMisses(config, key);
      forall i | 0 <= i < |config| ensures config[i].key != key {
        assert config[i] in config;
      }
    } else {
      AssocFinds(config, key);
      var i :| 0 <= i < |config| && config[i] == Pair(key, Assoc(config, key).text);
      assert config[i].key == key;
    }
    forall i | DistinctKeys(config) && 0 <= i < |config| && config[i].key == key
      ensures Assoc(config, key) == Str(config[i].value)
    {
      assert config[i] in config;
    }
  }

  /**
  From the configuration file to the answer: load a group, look a name up. The
  answer is the string beside that name, and NULL for a name that is not there.
  */
  method LoadAndLookUp(root: Setting, key: string) returns (ok: bool, r: CharPtr)
    ensures ok <==> root.body.Group? && forall i | 0 <= i < |root.body.members| :: root.body.members[i].body.Value?
    ensures ok ==>
              var ms := root.body.members;
              && (r.Str? ==> exists i | 0 <= i < |ms| :: ms[i].name == key && ms[i].body == Value(r.text))
              && (r.Null? <==> forall i | 0 <= i < |ms| :: ms[i].name != key)
    ensures ok ==>
              var ms := root.body.members;
              (forall i, j | 0 <= i < j < |ms| :: ms[i].name != ms[j].name) ==>
              forall i | 0 <= i < |ms| && ms[i].name == key :: ms[i].body.Value? && r == Str(ms[i].body.sql)
  {
    var index := new NamedQueries();
    ghost var shifts, probes, peak;
    ok, shifts := index.ReadConfigQueries(root);
    r := Null;
    if root.body.Group? {
      AllTextMeaning(root.body.members, |root.body.members|);
    }
    if ok {
      GroupPairsMeaning(root);
      r, probes, peak := index.GetQueryByName(key);
      AssocByPosition(index.config, key);
      if r.Str? {
        ghost var i :| 0 <= i < |index.config| && index.config[i] == Pair(key, r.text);
        assert root.body.members[i].name == key;
      }
    }
  }
}
