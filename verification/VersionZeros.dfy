/**
Trailing zeros: what `eq` makes of them, for numbers of any length, and whether
the ordered operators of m4/ax_compare_version.m4 take a missing component for
zero.
*/
module VersionZeros {
  import opened Decimals
  import opened Sequences
  import opened Versions
  import opened VersionOrder
  import opened LongVersions

  // ---- Missing components as zeros ----

  predicate AllZero(p: List<nat>) {
    match p
    case Nil => true
    case Cons(x, rest) => x == 0 && AllZero(rest)
  }

  /** Component by component, with missing components taken as zero. */
  predicate ZeroExtendedLess(p: List<nat>, q: List<nat>) {
    match (p, q)
    case (Nil, _) => !AllZero(q)
    case (Cons(_, _), Nil) => false
    case (Cons(x, p'), Cons(y, q')) => x < y || (x == y && ZeroExtendedLess(p', q'))
  }

  /** The comparison an operator names, with missing components taken as zero. */
  predicate ZeroExtendedVerdict(op: Op, p: List<nat>, q: List<nat>) {
    match op
    case Lt => ZeroExtendedLess(p, q)
    case Gt => ZeroExtendedLess(q, p)
    case Le => !ZeroExtendedLess(q, p)
    case Ge => !ZeroExtendedLess(p, q)
  }

  /** `q` is `p` followed by one or more zeros. */
  predicate ExtendedByZeros(p: List<nat>, q: List<nat>) {
    match (p, q)
    case (_, Nil) => false
    case (Nil, Cons(_, _)) => AllZero(q)
    case (Cons(x, p'), Cons(y, q')) => x == y && ExtendedByZeros(p', q')
  }

  lemma {:induction false} OrdersDiffer(p: List<nat>, q: List<nat>)
    ensures (LexLess(p, q) <==> ZeroExtendedLess(p, q)) <==> !ExtendedByZeros(p, q)
    ensures ExtendedByZeros(p, q) ==> ListPrefix(p, q) && LexLess(p, q)
  {
    if p.Cons? && q.Cons? { OrdersDiffer(p.tail, q.tail); }
  }

  /**
  An operator takes missing components for zero exactly when the longer version
  does not just add zeros: the second for `ge`, the first for `gt` and `le`.
  `lt`, which never sees that the second version is longer, does so exactly when
  that version adds nothing but zeros.
  */
  lemma MissingIsZeroIff(op: Op, a: string, b: string)
    requires Short(a) && Short(b)
    ensures var p, q := Components(a), Components(b);
            (Verdict(op, a, b) <==> ZeroExtendedVerdict(op, p, q)) <==>
              match op
              case Ge => !ExtendedByZeros(p, q)
              case Gt => !ExtendedByZeros(q, p)
              case Le => !ExtendedByZeros(q, p)
              case Lt => ProperPrefix(p, q) ==> ExtendedByZeros(p, q)
  {
    var p, q := Components(a), Components(b);
    OrderLaw(a, b);
    OrdersDiffer(p, q);
    OrdersDiffer(q, p);
    if ListPrefix(p, q) { PrefixIsLess(p, q); }
  }

  // ---- Equality ----

  /** Without its trailing zeros. */
  function Trimmed(p: List<nat>): List<nat> {
    match p
    case Nil => Nil
    case Cons(x, rest) => if x == 0 && Trimmed(rest).Nil? then Nil else Cons(x, Trimmed(rest))
  }

  /** Each text extended by as many zeros as the other is long. */
  predicate SameWithZeros(a: string, b: string) {
    a + ZeroDigits(|b|) == b + ZeroDigits(|a|)
  }

  /**
  The text tells `eq` the truth: the first groups that differ are equally long,
  or one is not the front of the other with zeros making up the rest.
  */
  predicate EqKept(p: List<string>, q: List<string>) {
    match (p, q)
    case (Nil, _) => true
    case (_, Nil) => true
    case (Cons(x, p'), Cons(y, q')) =>
      var u, v := Padded(x), Padded(y);
      var m := Shorter(u, v);
      if u == v then EqKept(p', q')
      else if |u| == |v| then true
      else
        var same := u[..m] == v[..m] && SameWithZeros(u[m..] + Grouped(p'), v[m..] + Grouped(q'));
        // Equal only if one number is written with more zeros in front.
        same == (Value(x) == Value(y) && Trimmed(Values(p')) == Trimmed(Values(q')))
  }

  lemma {:induction false} AllZeroIsTrimmed(p: List<nat>)
    ensures AllZero(p) <==> Trimmed(p).Nil?
  {
    if p.Cons? { AllZeroIsTrimmed(p.tail); }
  }

  /** The zero-extended order leaves two versions equal exactly when they are equal without their trailing zeros. */
  lemma {:induction false} ZeroExtendedOrder(p: List<nat>, q: List<nat>)
    ensures !ZeroExtendedLess(p, q) && !ZeroExtendedLess(q, p) <==> Trimmed(p) == Trimmed(q)
    ensures !(ZeroExtendedLess(p, q) && ZeroExtendedLess(q, p))
  {
    AllZeroIsTrimmed(p);
    AllZeroIsTrimmed(q);
    if p.Cons? && q.Cons? {
      ZeroExtendedOrder(p.tail, q.tail);
      TrimmedByHead(p.head, p.tail, q.head, q.tail);
    }
  }

  lemma {:induction false} ZeroDigitsSplit(m: nat, n: nat)
    ensures ZeroDigits(m + n) == ZeroDigits(m) + ZeroDigits(n)
  {
    if m > 0 {
      ZeroDigitsSplit(m - 1, n);
      AppendAssociative("0", ZeroDigits(m - 1), ZeroDigits(n));
    }
  }

  lemma {:induction false} ZeroDigitsMeaning(n: nat)
    ensures AllDigits(ZeroDigits(n)) && Value(ZeroDigits(n)) == 0
  {
    if n > 0 {
      ZeroDigitsMeaning(n - 1);
      ValueAppend("0", ZeroDigits(n - 1));
      assert Value("0") == 0 by { assert "0"[..0] == ""; }
    }
  }

  lemma EndCancels(a: string, b: string, z: string)
    ensures a + z == b + z <==> a == b
  {
    if a + z == b + z {
      assert a == (a + z)[..|a|] && b == (b + z)[..|b|];
    }
  }

  /** Fronts of equal length must agree, and what follows must be the same with zeros. */
  lemma SameByFront(f: string, a: string, g: string, b: string)
    requires |f| == |g|
    ensures SameWithZeros(f + a, g + b) <==> f == g && SameWithZeros(a, b)
  {
    var n, za, zb := |f|, ZeroDigits(|a|), ZeroDigits(|b|);
    var z := ZeroDigits(n);
    ZeroDigitsSplit(|b|, n);
    ZeroDigitsSplit(|a|, n);
    FrontTail(f, a, zb, z);
    FrontTail(g, b, za, z);
    PrefixByHead(f, a + zb + z, g, b + za + z);
    EndCancels(a + zb, b + za, z);
  }

  lemma FrontTail(f: string, a: string, zeros: string, z: string)
    ensures f + a + (zeros + z) == f + (a + zeros + z)
  {
  }

  lemma ZeroGroup(run: string)
    requires run != "" && AllDigits(run)
    ensures Padded(run) == ZeroDigits(|Padded(run)|) <==> Value(run) == 0
  {
    PaddedKeeps(run);
    ZeroDigitsMeaning(|Padded(run)|);
    DigitOrder(Padded(run), ZeroDigits(|Padded(run)|));
  }

  /** A text of zeros only is a version of zero components only. */
  lemma {:induction false} ZeroGroups(p: List<string>)
    requires RunsOk(p)
    ensures SameWithZeros("", Grouped(p)) <==> Trimmed(Values(p)).Nil?
  {
    AppendNothing(ZeroDigits(|Grouped(p)|));
    AppendNothing(Grouped(p));
    if p.Cons? {
      var u, rest := Padded(p.head), Grouped(p.tail);
      ZeroGroup(p.head);
      ZeroGroups(p.tail);
      AppendNothing(ZeroDigits(|rest|));
      AppendNothing(rest);
      ZeroDigitsSplit(|u|, |rest|);
      PrefixByHead(ZeroDigits(|u|), ZeroDigits(|rest|), u, rest);
    }
  }

  lemma SameFlips(a: string, b: string)
    ensures SameWithZeros(a, b) <==> SameWithZeros(b, a)
  {
  }

  lemma TrimmedByHead(x: nat, p: List<nat>, y: nat, q: List<nat>)
    ensures Trimmed(Cons(x, p)) == Trimmed(Cons(y, q)) <==> x == y && Trimmed(p) == Trimmed(q)
  {
  }

  /** Groups of different length, cut where the shorter one ends. */
  lemma UnevenSame(u: string, a: string, v: string, b: string)
    ensures var m := Shorter(u, v);
            SameWithZeros(u + a, v + b) <==> u[..m] == v[..m] && SameWithZeros(u[m..] + a, v[m..] + b)
  {
    var m := Shorter(u, v);
    assert u == u[..m] + u[m..] && v == v[..m] + v[m..];
    AppendAssociative(u[..m], u[m..], a);
    AppendAssociative(v[..m], v[m..], b);
    SameByFront(u[..m], u[m..] + a, v[..m], v[m..] + b);
  }

  lemma {:induction false} GroupsKeepEquality(p: List<string>, q: List<string>)
    requires RunsOk(p) && RunsOk(q)
    ensures (SameWithZeros(Grouped(p), Grouped(q)) <==> Trimmed(Values(p)) == Trimmed(Values(q))) <==> EqKept(p, q)
  {
    if p.Cons? && q.Cons? {
      var u, v := Padded(p.head), Padded(q.head);
      PaddedKeeps(p.head);
      PaddedKeeps(q.head);
      TrimmedByHead(Value(p.head), Values(p.tail), Value(q.head), Values(q.tail));
      if |u| == |v| {
        SameByFront(u, Grouped(p.tail), v, Grouped(q.tail));
        DigitOrder(u, v);
        GroupsKeepEquality(p.tail, q.tail);
      } else {
        UnevenSame(u, Grouped(p.tail), v, Grouped(q.tail));
      }
    } else {
      SameFlips(Grouped(p), "");
      ZeroGroups(p);
      ZeroGroups(q);
    }
  }

  /** For every two versions, `eq` is equality up to trailing zeros exactly when the text tells it the truth. */
  lemma EqIsRightIff(a: string, b: string)
    ensures (EqVerdict(a, b) <==> Trimmed(Components(a)) == Trimmed(Components(b))) <==>
            EqKept(Runs(a, 0), Runs(b, 0))
  {
    var x, y := Normalised(a), Normalised(b);
    NormalisedIsDigits(a);
    NormalisedIsDigits(b);
    GroupsKeepEquality(Runs(a, 0), Runs(b, 0));
    PrefixByHead("x", x + ZeroDigits(|y|), "x", y + ZeroDigits(|x|));
  }

  lemma {:induction false} EvenKeepsEquality(p: List<string>, q: List<string>)
    requires EvenlyPadded(p, q)
    ensures EqKept(p, q)
  {
    if p.Cons? && q.Cons? && Padded(p.head) == Padded(q.head) { EvenKeepsEquality(p.tail, q.tail); }
  }

  lemma {:induction false} ShortIsEven(p: List<string>, q: List<string>)
    requires ShortRuns(p) && ShortRuns(q)
    ensures EvenlyPadded(p, q)
  {
    if p.Cons? && q.Cons? {
      PaddedKeeps(p.head);
      PaddedKeeps(q.head);
      ShortIsEven(p.tail, q.tail);
    }
  }

  /** The `eq` verdict: equal components once trailing zeros are dropped; no component counts as zero. */
  lemma EqLaw(a: string, b: string)
    requires Short(a) && Short(b)
    ensures EqVerdict(a, b) <==> Trimmed(Components(a)) == Trimmed(Components(b))
  {
    ShortIsEven(Runs(a, 0), Runs(b, 0));
    EvenKeepsEquality(Runs(a, 0), Runs(b, 0));
    EqIsRightIff(a, b);
  }

  /**
  Groups of different length, the longer without extra zeros: `eq` is right
  exactly when the shorter is not its front with zeros making up the rest.
  */
  lemma UnevenGroupsEqIff(x: string, p: List<string>, y: string, q: List<string>)
    requires x != "" && y != "" && AllDigits(x) && AllDigits(y) && NoExtraZeros(y)
    requires |Padded(x)| < |Padded(y)|
    ensures var u := Padded(x);
            EqKept(Cons(x, p), Cons(y, q)) <==> !(u == y[..|u|] && SameWithZeros(Grouped(p), y[|u|..] + Grouped(q)))
  {
    var u := Padded(x);
    ShorterIsSmaller(x, y);
    assert u[..|u|] == u && u[|u|..] == "";
    AppendNothing(Grouped(p));
  }

  lemma {:induction false} EqKeptFlips(p: List<string>, q: List<string>)
    ensures EqKept(p, q) == EqKept(q, p)
  {
    if p.Cons? && q.Cons? { EqKeptFlips(p.tail, q.tail); }
  }

  /** The rest `p` against the rest `q` behind zeros `z`. */
  predicate EqKeptBehindZeros(p: List<string>, z: string, q: List<string>) {
    match q
    case Cons(y, q') => EqKept(p, Cons(z + Padded(y), q'))
    case Nil => true
  }

  lemma EqBehindZeros(p: List<string>, z: string, q: List<string>)
    requires RunsOk(p) && RunsOk(q) && z != "" && AllDigits(z) && Value(z) == 0
    ensures (SameWithZeros(Grouped(p), z + Grouped(q)) <==> Trimmed(Values(p)) == Trimmed(Values(q))) <==>
            EqKeptBehindZeros(p, z, q)
  {
    if q.Cons? {
      ZerosJoin(z, q.head, q.tail);
      GroupsKeepEquality(p, Cons(z + Padded(q.head), q.tail));
    } else {
      AppendNothing(z);
      ZeroDigitsMeaning(|z|);
      DigitOrder(z, ZeroDigits(|z|));
      SameAsZeros(Grouped(p), |z|);
      ZeroGroups(p);
    }
  }

  /** Equality up to zeros with zeros is being zeros. */
  lemma SameAsZeros(s: string, n: nat)
    ensures SameWithZeros(s, ZeroDigits(n)) <==> SameWithZeros("", s)
  {
    AppendNothing(ZeroDigits(|s|));
    AppendNothing(s);
    ZeroDigitsSplit(n, |s|);
    ZeroDigitsSplit(|s|, n);
    EndCancels(s, ZeroDigits(|s|), ZeroDigits(n));
  }

  /**
  Groups of different length without any condition on zeros. Different numbers:
  `eq` is right unless the shorter is the front of the longer with zeros making
  up the rest. The same number, not zero: it never holds. Both zero: the zeros
  left over stand in front of the rest.
  */
  lemma UnevenGroupsWithZerosEqIff(x: string, p: List<string>, y: string, q: List<string>)
    requires x != "" && y != "" && AllDigits(x) && AllDigits(y) && RunsOk(p) && RunsOk(q)
    requires |Padded(x)| < |Padded(y)|
    ensures Padded(y) == y
    ensures var u := Padded(x);
            var front, back := y[..|u|], y[|u|..];
            EqKept(Cons(x, p), Cons(y, q)) <==>
              if Value(x) != Value(y) then !(u == front && SameWithZeros(Grouped(p), back + Grouped(q)))
              else if Value(x) > 0 then Trimmed(Values(p)) != Trimmed(Values(q))
              else EqKeptBehindZeros(p, back, q)
  {
    UnevenFronts(x, y);
    UnevenEqKept(x, p, y, q);
    if Value(x) == Value(y) == 0 {
      EqBehindZeros(p, y[|Padded(x)|..], q);
    }
  }

  lemma UnevenEqKept(x: string, p: List<string>, y: string, q: List<string>)
    requires |Padded(x)| < |Padded(y)| && Padded(y) == y
    ensures var u := Padded(x);
            EqKept(Cons(x, p), Cons(y, q)) <==>
              (u == y[..|u|] && SameWithZeros(Grouped(p), y[|u|..] + Grouped(q))) ==
              (Value(x) == Value(y) && Trimmed(Values(p)) == Trimmed(Values(q)))
  {
    var u := Padded(x);
    assert u[..|u|] == u && u[|u|..] == "";
    AppendNothing(Grouped(p));
  }

  // ---- Examples ----

  /** The first numbers differ, but the padded text is the same. */
  lemma SameTextIsEqual(x: string, y: string, x': string, y': string)
    requires x != "" && y != "" && x' != "" && y' != ""
    requires AllDigits(x) && AllDigits(y) && AllDigits(x') && AllDigits(y')
    requires Padded(x) + Padded(y) == Padded(x') + Padded(y') && Value(x) != Value(x')
    ensures EqVerdict(x + "." + y, x' + "." + y')
    ensures Trimmed(Components(x + "." + y)) != Trimmed(Components(x' + "." + y'))
  {
    TwoRuns(x, y);
    TwoRuns(x', y');
    TwoGroups(x, y);
    TwoGroups(x', y');
    NormalisedIsDigits(x + "." + y);
    NormalisedIsDigits(x' + "." + y');
    TrimmedByHead(Value(x), Values(Cons(y, Nil)), Value(x'), Values(Cons(y', Nil)));
  }

  /** Two different versions with the same padded text: `eq` holds of them. */
  lemma EqConfusesLongNumbers()
    ensures EqVerdict("12345.6", "1234.50006")
    ensures Trimmed(Components("12345.6")) != Trimmed(Components("1234.50006"))
  {
    assert "12345" + "." + "6" == "12345.6" && "1234" + "." + "50006" == "1234.50006";
    assert "12345" + "0006" == "1234" + "50006";
    ShorterIsSmaller("1234", "12345");
    SameTextIsEqual("12345", "6", "1234", "50006");
  }

  /** The empty version equals 0 for `eq`; of the ordered operators `ge`, `gt` and `le` do not take it for 0. */
  lemma EmptyIsZeroOnlyForEq()
    ensures EqVerdict("", "0")
    ensures !Verdict(Ge, "", "0") && Verdict(Gt, "0", "") && !Verdict(Le, "0", "")
  {
    assert DigitRun("0", 1) == 1 && "0"[0..1] == "0" && Runs("0", 1) == Nil;
    assert Runs("0", 0) == Cons("0", Nil) && Runs("", 0) == Nil;
    assert Value("0") == 0 by { assert "0"[..0] == ""; }
    EqLaw("", "0");
    OrderLaw("", "0");
    OrderLaw("0", "");
  }
}
