/**
The ordered verdicts of m4/ax_compare_version.m4 on numbers of any length: when
comparing the padded text is comparing the numbers, and when it is not.
*/
module LongVersions {
  import opened CStrings
  import opened Decimals
  import opened Sequences
  import opened Versions
  import opened VersionOrder

  // ---- What a right verdict is ----

  /** The comparison an operator names, component by component. */
  predicate ComponentVerdict(op: Op, p: List<nat>, q: List<nat>) {
    match op
    case Lt => LexLess(p, q)
    case Gt => LexLess(q, p)
    case Le => !LexLess(q, p)
    case Ge => !LexLess(p, q)
  }

  /** The comparison it names between two numbers. */
  predicate NumberVerdict(op: Op, m: nat, n: nat) {
    match op
    case Lt => m < n
    case Gt => m > n
    case Le => m <= n
    case Ge => m >= n
  }

  /** The verdict once the first side is known to be smaller, or else greater. */
  predicate Decided(op: Op, less: bool) {
    if op == Lt || op == Le then less else !less
  }

  // ---- When the text decides as the numbers do ----

  function Shorter(u: string, v: string): nat {
    if |u| < |v| then |u| else |v|
  }

  /** What the text makes of two groups of different length: their fronts decide, or else what follows the fronts. */
  predicate UnevenText(op: Op, u: string, a: string, v: string, b: string) {
    var m := Shorter(u, v);
    var front, front' := Value(u[..m]), Value(v[..m]);
    if front != front' then Decided(op, front < front') else TextVerdict(op, u[m..] + a, v[m..] + b)
  }

  /**
  The text decides as the numbers do: the first groups that differ are equally
  long, or their fronts happen to decide the same. Only `lt` also needs the
  first version not to run out.
  */
  predicate OrderKept(op: Op, p: List<string>, q: List<string>) {
    match (p, q)
    case (Nil, Nil) => true
    case (Nil, Cons(_, _)) => op != Lt
    case (Cons(_, _), Nil) => true
    case (Cons(x, p'), Cons(y, q')) =>
      var u, v := Padded(x), Padded(y);
      if u == v then OrderKept(op, p', q')
      else if |u| == |v| then true
      else if Value(x) != Value(y) then
        UnevenText(op, u, Grouped(p'), v, Grouped(q')) == Decided(op, Value(x) < Value(y))
      else
        // One number written with more zeros in front: the rest decides.
        UnevenText(op, u, Grouped(p'), v, Grouped(q')) == ComponentVerdict(op, Values(p'), Values(q'))
  }

  /** Two texts after fronts of equal length. */
  lemma TextByFront(op: Op, f: string, a: string, g: string, b: string)
    requires |f| == |g| && AllDigits(f) && AllDigits(g)
    ensures TextVerdict(op, f + a, g + b) <==>
            if Value(f) != Value(g) then Decided(op, Value(f) < Value(g)) else TextVerdict(op, a, b)
  {
    LessByHead(f, a, g, b);
    LessByHead(g, b, f, a);
    PrefixByHead(f, a, g, b);
    DigitOrder(f, g);
    DigitOrder(g, f);
  }

  lemma FrontDigits(u: string, m: nat)
    requires AllDigits(u) && m <= |u|
    ensures AllDigits(u[..m]) && AllDigits(u[m..]) && u == u[..m] + u[m..]
  {
  }

  lemma UnevenTextIs(op: Op, u: string, a: string, v: string, b: string)
    requires AllDigits(u) && AllDigits(v)
    ensures TextVerdict(op, u + a, v + b) <==> UnevenText(op, u, a, v, b)
  {
    var m := Shorter(u, v);
    FrontDigits(u, m);
    FrontDigits(v, m);
    AppendAssociative(u[..m], u[m..], a);
    AppendAssociative(v[..m], v[m..], b);
    TextByFront(op, u[..m], u[m..] + a, v[..m], v[m..] + b);
  }

  lemma ComponentsByHead(op: Op, x: nat, p: List<nat>, y: nat, q: List<nat>)
    ensures ComponentVerdict(op, Cons(x, p), Cons(y, q)) <==>
            if x != y then Decided(op, x < y) else ComponentVerdict(op, p, q)
  {
  }

  lemma ComponentsAtEnd(op: Op, p: List<nat>)
    ensures ComponentVerdict(op, Nil, p) <==> if p.Nil? then op == Le || op == Ge else Decided(op, true)
    ensures ComponentVerdict(op, p, Nil) <==> if p.Nil? then op == Le || op == Ge else Decided(op, false)
  {
  }

  lemma TextAtEnd(op: Op, a: string)
    ensures TextVerdict(op, "", a) <==> if a == "" then op == Le || op == Ge else op != Lt && Decided(op, true)
    ensures TextVerdict(op, a, "") <==> if a == "" then op == Le || op == Ge else Decided(op, false)
  {
    PrefixIsNotGreater("", a);
  }

  /** The groups of two versions, whatever the length of their numbers. */
  lemma {:induction false} GroupsKeepOrder(op: Op, p: List<string>, q: List<string>)
    requires RunsOk(p) && RunsOk(q)
    ensures (TextVerdict(op, Grouped(p), Grouped(q)) <==> ComponentVerdict(op, Values(p), Values(q))) <==>
            OrderKept(op, p, q)
  {
    if p.Cons? { PaddedKeeps(p.head); }
    if q.Cons? { PaddedKeeps(q.head); }
    if p.Cons? && q.Cons? {
      var u, v := Padded(p.head), Padded(q.head);
      ComponentsByHead(op, Value(p.head), Values(p.tail), Value(q.head), Values(q.tail));
      if |u| == |v| {
        TextByFront(op, u, Grouped(p.tail), v, Grouped(q.tail));
        DigitOrder(u, v);
        GroupsKeepOrder(op, p.tail, q.tail);
      } else {
        UnevenTextIs(op, u, Grouped(p.tail), v, Grouped(q.tail));
      }
    } else {
      ComponentsAtEnd(op, Values(p));
      ComponentsAtEnd(op, Values(q));
      TextAtEnd(op, Grouped(p));
      TextAtEnd(op, Grouped(q));
    }
  }

  /** For every two versions, the verdict is the component-wise one exactly when the text decides as the numbers do. */
  lemma VerdictIsRightIff(op: Op, a: string, b: string)
    ensures (Verdict(op, a, b) <==> ComponentVerdict(op, Components(a), Components(b))) <==>
            OrderKept(op, Runs(a, 0), Runs(b, 0))
  {
    NormalisedIsDigits(a);
    NormalisedIsDigits(b);
    OutputIsTrue(op, Normalised(a), Normalised(b));
    GroupsKeepOrder(op, Runs(a, 0), Runs(b, 0));
  }

  /** The first padded groups that differ are equally long, or there are none. */
  predicate EvenlyPadded(p: List<string>, q: List<string>) {
    match (p, q)
    case (Nil, _) => true
    case (_, Nil) => true
    case (Cons(x, p'), Cons(y, q')) =>
      if Padded(x) == Padded(y) then EvenlyPadded(p', q') else |Padded(x)| == |Padded(y)|
  }

  lemma {:induction false} EvenIsKept(op: Op, p: List<string>, q: List<string>)
    requires EvenlyPadded(p, q) && op != Lt
    ensures OrderKept(op, p, q)
  {
    if p.Cons? && q.Cons? && Padded(p.head) == Padded(q.head) { EvenIsKept(op, p.tail, q.tail); }
  }

  /** Long numbers do no harm to `ge`, `gt` and `le` as long as the first that differ have the same length. */
  lemma EvenVersionsAreRight(op: Op, a: string, b: string)
    requires EvenlyPadded(Runs(a, 0), Runs(b, 0)) && op != Lt
    ensures Verdict(op, a, b) <==> ComponentVerdict(op, Components(a), Components(b))
  {
    EvenIsKept(op, Runs(a, 0), Runs(b, 0));
    VerdictIsRightIff(op, a, b);
  }

  // ---- Numbers without extra zeros ----

  /** No zero in front of a number of more than four digits. */
  predicate NoExtraZeros(run: string) {
    |run| > 4 ==> run[0] != '0'
  }

  lemma {:induction false} ValueAtLeast(s: string)
    requires s != "" && AllDigits(s) && s[0] != '0'
    ensures Value(s) >= Pow10(|s| - 1)
  {
    if |s| == 1 {
      assert s[..0] == "";
    } else {
      ValueAtLeast(s[..|s| - 1]);
    }
  }

  lemma {:induction false} Pow10Grows(k: nat, n: nat)
    requires k <= n
    ensures Pow10(k) <= Pow10(n)
  {
    if k < n {
      Pow10Grows(k, n - 1);
    }
  }

  /** Of two groups, the shorter is the smaller number. */
  lemma ShorterIsSmaller(x: string, y: string)
    requires x != "" && y != "" && AllDigits(x) && AllDigits(y) && NoExtraZeros(y)
    requires |Padded(x)| < |Padded(y)|
    ensures Value(x) < Value(y) && Padded(y) == y
  {
    PaddedKeeps(x);
    PaddedKeeps(y);
    ValueBound(Padded(x));
    ValueAtLeast(y);
    Pow10Grows(|Padded(x)|, |y| - 1);
  }

  /**
  Groups of different length, the longer without extra zeros: right exactly when
  the shorter number is below the front of the longer one, or is that front and
  what follows decides so.
  */
  lemma UnevenGroupsKeptIff(op: Op, x: string, p: List<string>, y: string, q: List<string>)
    requires x != "" && y != "" && AllDigits(x) && AllDigits(y) && NoExtraZeros(y)
    requires |Padded(x)| < |Padded(y)|
    ensures var u := Padded(x);
            var front, back := Value(y[..|u|]), y[|u|..];
            && (OrderKept(op, Cons(x, p), Cons(y, q)) <==>
                || Value(x) < front
                || (Value(x) == front && TextVerdict(op, Grouped(p), back + Grouped(q)) == Decided(op, true)))
            && (OrderKept(op, Cons(y, q), Cons(x, p)) <==>
                || Value(x) < front
                || (Value(x) == front && TextVerdict(op, back + Grouped(q), Grouped(p)) == Decided(op, false)))
  {
    var u := Padded(x);
    ShorterIsSmaller(x, y);
    PaddedKeeps(x);
    assert u[..|u|] == u && u[|u|..] == "";
    AppendNothing(Grouped(p));
  }

  // ---- Numbers with extra zeros ----

  /** The front of the longer group is never above its number, and below it unless the number is zero. */
  lemma FrontBelowNumber(y: string, m: nat)
    requires AllDigits(y) && m < |y|
    ensures Value(y[..m]) <= Value(y) && (Value(y) > 0 ==> Value(y[..m]) < Value(y))
    ensures Value(y) == 0 ==> Value(y[..m]) == 0 && Value(y[m..]) == 0
  {
    var f, b := y[..m], y[m..];
    assert y == f + b;
    ValueAppend(f, b);
    Pow10Grows(1, |b|);
    assert Pow10(1) == 10;
    if Value(f) > 0 {
      MultiplyMore(Value(f), Pow10(|b|));
    } else {
      assert 0 * Pow10(|b|) == 0;
    }
  }

  lemma MultiplyMore(n: nat, k: nat)
    requires n > 0 && k >= 10
    ensures n * k > n
  {
  }

  /** A run of zeros `z` in front of the groups of `q` belongs to the first of them. */
  lemma ZerosJoin(z: string, y: string, q: List<string>)
    requires z != "" && AllDigits(z) && Value(z) == 0 && y != "" && AllDigits(y)
    ensures var run := z + Padded(y);
            && run != "" && AllDigits(run) && Value(run) == Value(y)
            && Grouped(Cons(run, q)) == z + Grouped(Cons(y, q))
  {
    PaddedKeeps(y);
    ValueAppend(z, Padded(y));
    assert 0 * Pow10(|Padded(y)|) == 0;
    AppendAssociative(z, Padded(y), Grouped(q));
  }

  /** Zeros against digits: smaller unless the digits are zeros too, and then the shorter is smaller. */
  lemma ZerosCompare(z: string, s: string)
    requires AllDigits(z) && Value(z) == 0 && AllDigits(s)
    ensures Less(z, s) <==> Value(s) > 0 || |z| < |s|
    ensures Less(s, z) <==> Value(s) == 0 && |s| < |z|
    ensures IsPrefix(z, s) <==> |z| <= |s| && Value(s[..|z|]) == 0
    ensures IsPrefix(s, z) <==> |s| <= |z| && Value(s) == 0
  {
    var m := Shorter(z, s);
    FrontDigits(z, m);
    FrontDigits(s, m);
    LessByHead(z[..m], z[m..], s[..m], s[m..]);
    LessByHead(s[..m], s[m..], z[..m], z[m..]);
    DigitOrder(z[..m], s[..m]);
    DigitOrder(s[..m], z[..m]);
    if m < |z| { FrontBelowNumber(z, m); }
    if m < |s| { FrontBelowNumber(s, m); }
    assert m == |z| ==> z[..m] == z && z[m..] == "";
    assert m == |s| ==> s[..m] == s && s[m..] == "";
    if z[m..] == "" { PrefixIsNotGreater(z[m..], s[m..]); }
    if s[m..] == "" { PrefixIsNotGreater(s[m..], z[m..]); }
    ValueOfZeroFront(s, m);
  }

  lemma ValueOfZeroFront(s: string, m: nat)
    requires AllDigits(s) && m <= |s|
    ensures Value(s[..m]) > 0 ==> Value(s) > 0
  {
    if m < |s| {
      FrontBelowNumber(s, m);
    } else {
      assert s[..m] == s;
    }
  }

  /** Digits are rightly taken for greater than zeros. */
  predicate AboveZeros(op: Op, s: string, z: string) {
    op == Lt || Value(s) > 0 || |s| > |z| || (op == Ge && |s| == |z|)
  }

  /** Zeros are rightly taken for smaller than digits. */
  predicate ZerosBelow(op: Op, z: string, s: string) {
    if op == Lt then Value(s[..Shorter(z, s)]) > 0
    else Value(s) > 0 || |s| > |z| || (op != Ge && |s| == |z|)
  }

  lemma TextAboveZeros(op: Op, s: string, z: string)
    requires AllDigits(s) && AllDigits(z) && Value(z) == 0
    ensures TextVerdict(op, s, z) == Decided(op, false) <==> AboveZeros(op, s, z)
  {
    ZerosCompare(z, s);
  }

  lemma TextZerosBelow(op: Op, z: string, s: string)
    requires AllDigits(s) && AllDigits(z) && Value(z) == 0
    ensures TextVerdict(op, z, s) == Decided(op, true) <==> ZerosBelow(op, z, s)
  {
    ZerosCompare(z, s);
    if |s| <= |z| {
      assert s[..|s|] == s;
    }
  }

  /** The rest `p` against the rest `q` behind zeros `z`: right exactly when this holds. */
  predicate KeptBehindZeros(op: Op, p: List<string>, z: string, q: List<string>) {
    match q
    case Cons(y, q') => OrderKept(op, p, Cons(z + Padded(y), q'))
    case Nil => if p.Nil? then op != Ge else AboveZeros(op, Grouped(p), z)
  }

  /** The same with the sides exchanged. */
  predicate KeptBeforeZeros(op: Op, z: string, q: List<string>, p: List<string>) {
    match q
    case Cons(y, q') => OrderKept(op, Cons(z + Padded(y), q'), p)
    case Nil => if p.Nil? then op == Ge || op == Lt else ZerosBelow(op, z, Grouped(p))
  }

  lemma BehindZeros(op: Op, p: List<string>, z: string, q: List<string>)
    requires RunsOk(p) && RunsOk(q) && z != "" && AllDigits(z) && Value(z) == 0
    ensures (TextVerdict(op, Grouped(p), z + Grouped(q)) <==> ComponentVerdict(op, Values(p), Values(q))) <==>
            KeptBehindZeros(op, p, z, q)
  {
    if q.Cons? {
      ZerosJoin(z, q.head, q.tail);
      GroupsKeepOrder(op, p, Cons(z + Padded(q.head), q.tail));
    } else {
      AppendNothing(z);
      ComponentsAtEnd(op, Values(p));
      if p.Nil? {
        TextAtEnd(op, z);
      } else {
        GroupedIsDigits(p);
        TextAboveZeros(op, Grouped(p), z);
      }
    }
  }

  lemma BeforeZeros(op: Op, z: string, q: List<string>, p: List<string>)
    requires RunsOk(p) && RunsOk(q) && z != "" && AllDigits(z) && Value(z) == 0
    ensures (TextVerdict(op, z + Grouped(q), Grouped(p)) <==> ComponentVerdict(op, Values(q), Values(p))) <==>
            KeptBeforeZeros(op, z, q, p)
  {
    if q.Cons? {
      ZerosJoin(z, q.head, q.tail);
      GroupsKeepOrder(op, Cons(z + Padded(q.head), q.tail), p);
    } else {
      AppendNothing(z);
      ComponentsAtEnd(op, Values(p));
      if p.Nil? {
        TextAtEnd(op, z);
      } else {
        GroupedIsDigits(p);
        TextZerosBelow(op, z, Grouped(p));
      }
    }
  }

  /** The text of a shorter and a longer group, by the front of the longer one. */
  lemma UnevenTextByFront(op: Op, u: string, a: string, v: string, b: string)
    requires |u| < |v|
    ensures var front, back := v[..|u|], v[|u|..];
            && (UnevenText(op, u, a, v, b) <==>
                if Value(u) != Value(front) then Decided(op, Value(u) < Value(front)) else TextVerdict(op, a, back + b))
            && (UnevenText(op, v, b, u, a) <==>
                if Value(u) != Value(front) then Decided(op, Value(front) < Value(u)) else TextVerdict(op, back + b, a))
  {
    assert u[..|u|] == u && u[|u|..] == "";
    AppendNothing(a);
  }

  /** What is known of a longer group's front and back. */
  lemma UnevenFronts(x: string, y: string)
    requires x != "" && y != "" && AllDigits(x) && AllDigits(y) && |Padded(x)| < |Padded(y)|
    ensures Padded(y) == y && Value(Padded(x)) == Value(x)
    ensures var front, back := y[..|Padded(x)|], y[|Padded(x)|..];
            && back != "" && AllDigits(back)
            && (Padded(x) == front <==> Value(x) == Value(front))
            && Value(front) <= Value(y) && (Value(y) > 0 ==> Value(front) < Value(y))
            && (Value(y) == 0 ==> Value(front) == 0 && Value(back) == 0)
  {
    PaddedKeeps(x);
    PaddedKeeps(y);
    FrontBelowNumber(y, |Padded(x)|);
    FrontDigits(y, |Padded(x)|);
    DigitOrder(Padded(x), y[..|Padded(x)|]);
  }

  lemma UnevenOrderKept(op: Op, x: string, p: List<string>, y: string, q: List<string>)
    requires |Padded(x)| != |Padded(y)|
    ensures OrderKept(op, Cons(x, p), Cons(y, q)) <==>
            UnevenText(op, Padded(x), Grouped(p), Padded(y), Grouped(q)) ==
              if Value(x) != Value(y) then Decided(op, Value(x) < Value(y))
              else ComponentVerdict(op, Values(p), Values(q))
  {
  }

  /** The longer group second: when the order is kept, zeros in front or not. */
  predicate KeptWithLonger(op: Op, x: string, p: List<string>, y: string, q: List<string>)
    requires |Padded(x)| < |y|
  {
    var front, back := Value(y[..|Padded(x)|]), y[|Padded(x)|..];
    if Value(x) > Value(y) then true
    else if Value(x) < Value(y) then
      || Value(x) < front
      || (Value(x) == front && TextVerdict(op, Grouped(p), back + Grouped(q)) == Decided(op, true))
    else if Value(x) > 0 then ComponentVerdict(op, Values(p), Values(q)) == Decided(op, false)
    else KeptBehindZeros(op, p, back, q)
  }

  /** The longer group first. */
  predicate KeptAfterLonger(op: Op, y: string, q: List<string>, x: string, p: List<string>)
    requires |Padded(x)| < |y|
  {
    var front, back := Value(y[..|Padded(x)|]), y[|Padded(x)|..];
    if Value(x) > Value(y) then true
    else if Value(x) < Value(y) then
      || Value(x) < front
      || (Value(x) == front && TextVerdict(op, back + Grouped(q), Grouped(p)) == Decided(op, false))
    else if Value(x) > 0 then ComponentVerdict(op, Values(q), Values(p)) == Decided(op, true)
    else KeptBeforeZeros(op, back, q, p)
  }

  /**
  Groups of different length without any condition on zeros. A longer group that
  is the smaller number does no harm. If both are the same number, not zero, the
  rest of the shorter one's version must be the greater; if both are zero, the
  zeros left over stand in front of the rest.
  */
  lemma LongerSecondKeptIff(op: Op, x: string, p: List<string>, y: string, q: List<string>)
    requires x != "" && y != "" && AllDigits(x) && AllDigits(y) && RunsOk(p) && RunsOk(q)
    requires |Padded(x)| < |Padded(y)|
    ensures Padded(y) == y
    ensures OrderKept(op, Cons(x, p), Cons(y, q)) <==> KeptWithLonger(op, x, p, y, q)
  {
    UnevenFronts(x, y);
    UnevenOrderKept(op, x, p, y, q);
    UnevenTextByFront(op, Padded(x), Grouped(p), y, Grouped(q));
    if Value(x) == Value(y) == 0 {
      BehindZeros(op, p, y[|Padded(x)|..], q);
    }
  }

  /** The same with the longer group first. */
  lemma LongerFirstKeptIff(op: Op, x: string, p: List<string>, y: string, q: List<string>)
    requires x != "" && y != "" && AllDigits(x) && AllDigits(y) && RunsOk(p) && RunsOk(q)
    requires |Padded(x)| < |Padded(y)|
    ensures Padded(y) == y
    ensures OrderKept(op, Cons(y, q), Cons(x, p)) <==> KeptAfterLonger(op, y, q, x, p)
  {
    UnevenFronts(x, y);
    UnevenOrderKept(op, y, q, x, p);
    UnevenTextByFront(op, Padded(x), Grouped(p), y, Grouped(q));
    if Value(x) == Value(y) == 0 {
      BeforeZeros(op, y[|Padded(x)|..], q, p);
    }
  }

  // ---- Versions of one number ----

  lemma SingleRun(a: string)
    requires AllDigits(a) && a != ""
    ensures Runs(a, 0) == Cons(a, Nil)
  {
    DigitRunStops(a, 1, |a|);
    assert a[0..|a|] == a;
  }

  /** A version that is one number of four or more digits is compared as text. */
  lemma LongNumbersCompareAsText(op: Op, a: string, b: string)
    requires AllDigits(a) && AllDigits(b) && |a| >= 4 && |b| >= 4
    ensures Verdict(op, a, b) <==> TextVerdict(op, a, b)
  {
    SingleRun(a);
    SingleRun(b);
    NormalisedIsDigits(a);
    NormalisedIsDigits(b);
    AppendNothing(a);
    AppendNothing(b);
    OutputIsTrue(op, Normalised(a), Normalised(b));
  }

  /** With nothing after either group. */
  lemma LastGroupsKeptIff(op: Op, x: string, y: string, end: List<string>)
    requires x != "" && y != "" && AllDigits(x) && AllDigits(y) && NoExtraZeros(y)
    requires |Padded(x)| < |Padded(y)| && Grouped(end) == ""
    ensures var front := Value(y[..|Padded(x)|]);
            && (OrderKept(op, Cons(x, end), Cons(y, end)) <==> Value(x) < front || (Value(x) == front && op != Lt))
            && (OrderKept(op, Cons(y, end), Cons(x, end)) <==> Value(x) <= front)
  {
    PaddedKeeps(y);
    var back := y[|Padded(x)|..];
    UnevenGroupsKeptIff(op, x, end, y, end);
    AppendNothing(back);
    TextAtEnd(op, back);
  }

  /**
  One number each: the verdict is right exactly when the number with fewer
  digits, four at least, is not above the front of the other; for `lt` it may
  not start the other either.
  */
  lemma NumbersRightIff(op: Op, a: string, b: string)
    requires AllDigits(a) && AllDigits(b) && a != "" && b != "" && NoExtraZeros(a) && NoExtraZeros(b)
    ensures var u, v := Padded(a), Padded(b);
            (Verdict(op, a, b) <==> NumberVerdict(op, Value(a), Value(b))) <==>
            && (|u| < |v| ==> Value(a) < Value(b[..|u|]) || (Value(a) == Value(b[..|u|]) && op != Lt))
            && (|v| < |u| ==> Value(b) <= Value(a[..|v|]))
  {
    var u, v := Padded(a), Padded(b);
    SingleRun(a);
    SingleRun(b);
    PaddedKeeps(a);
    PaddedKeeps(b);
    VerdictIsRightIff(op, a, b);
    ComponentsByHead(op, Value(a), Nil, Value(b), Nil);
    ComponentsAtEnd(op, Nil);
    if |u| < |v| {
      LastGroupsKeptIff(op, a, b, Nil);
    } else if |v| < |u| {
      LastGroupsKeptIff(op, b, a, Nil);
    }
  }

  /** With five digits in one number the order of the numbers is lost. */
  lemma FiveDigitsLoseOrder()
    ensures Value("9999") < Value("10000") && !Verdict(Ge, "10000", "9999")
  {
    LessByHead("1", "0000", "9", "999");
    LessDigit('1', '9');
    assert "1" + "0000" == "10000" && "9" + "999" == "9999";
    ValueBound("9999");
    ValueAppend("1", "0000");
    assert Value("1") == 1 by { assert "1"[..0] == ""; }
    assert Pow10(4) == 10 * Pow10(3);
    LongNumbersCompareAsText(Ge, "10000", "9999");
  }
}
