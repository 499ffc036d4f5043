/** The verdicts of m4/ax_compare_version.m4 against component-wise comparison. */
module VersionOrder {
  import opened CStrings
  import opened Decimals
  import opened Sequences
  import opened Versions

  // ---- The verdict pipelines ----

  datatype Op = Lt | Gt | Le | Ge

  /** The first of two lines after `sort`, and after `sort -r`. */
  function FirstSorted(a: string, b: string): string {
    if Less(b, a) then b else a
  }

  function FirstReversed(a: string, b: string): string {
    if Less(a, b) then b else a
  }

  predicate OccursAt(line: string, pattern: string, i: nat) {
    i + |pattern| <= |line| && line[i..i + |pattern|] == pattern
  }

  /** `s/pattern/with/` from byte `i` on: the first occurrence is replaced. */
  function Substituted(line: string, pattern: string, with: string, i: nat): string
    requires i <= |line|
    decreases |line| - i
  {
    if OccursAt(line, pattern, i) then line[..i] + with + line[i + |pattern|..]
    else if i == |line| then line
    else Substituted(line, pattern, with, i + 1)
  }

  function Substitute(line: string, pattern: string, with: string): string {
    Substituted(line, pattern, with, 0)
  }

  /** What the shell assigns to `ax_compare_version` for two normalised versions. */
  function Output(op: Op, a: string, b: string): string {
    var (line, first, second) :=
      match op
      case Lt => (FirstReversed("x" + a, "x" + b), "false", "true")
      case Gt => (FirstSorted("x" + a, "x" + b), "false", "true")
      case Le => (FirstSorted("x" + a, "x" + b), "true", "false")
      case Ge => (FirstReversed("x" + a, "x" + b), "true", "false");
    Substitute(Substitute(line, "x" + a, first), "x" + b, second)
  }

  /** The action for a true comparison is taken. */
  predicate Verdict(op: Op, a: string, b: string) {
    Output(op, Normalised(a), Normalised(b)) == "true"
  }

  function ZeroDigits(n: nat): (r: string)
    ensures |r| == n
  {
    if n == 0 then "" else "0" + ZeroDigits(n - 1)
  }

  /** The `eq` test: each side extended by as many zeros as the other is long. */
  predicate EqVerdict(a: string, b: string) {
    "x" + (Normalised(a) + ZeroDigits(|Normalised(b)|)) == "x" + (Normalised(b) + ZeroDigits(|Normalised(a)|))
  }

  // ---- String order ----

  predicate IsPrefix(a: string, b: string) {
    |a| <= |b| && b[..|a|] == a
  }

  lemma {:induction false} StrcmpShift(x: string, u: string, y: string, v: string, j: nat)
    requires |x| == |y| && j <= |u| && j <= |v|
    ensures StrcmpFrom(x + u, y + v, |x| + j) == StrcmpFrom(u, v, j)
    decreases |u| - j
  {
    if j < |u| && j < |v| && u[j] == v[j] {
      StrcmpShift(x, u, y, v, j + 1);
    }
  }

  lemma {:induction false} StrcmpHead(x: string, u: string, y: string, v: string, i: nat)
    requires |x| == |y| && i <= |x|
    ensures StrcmpFrom(x + u, y + v, i) ==
            if StrcmpFrom(x, y, i) != 0 then StrcmpFrom(x, y, i) else StrcmpFrom(u, v, 0)
    decreases |x| - i
  {
    if i == |x| {
      StrcmpShift(x, u, y, v, 0);
    } else if x[i] == y[i] {
      StrcmpHead(x, u, y, v, i + 1);
    }
  }

  /** Strings with heads of equal length compare by their heads first. */
  lemma LessByHead(x: string, u: string, y: string, v: string)
    requires |x| == |y|
    ensures Less(x + u, y + v) <==> Less(x, y) || (x == y && Less(u, v))
  {
    StrcmpHead(x, u, y, v, 0);
    LessIsLexicographic(x, y);
  }

  lemma LessSame(x: string, u: string, v: string)
    ensures Less(x + u, x + v) <==> Less(u, v)
  {
    LessByHead(x, u, x, v);
    LessIsStrictTotalOrder(x, x, x);
  }

  lemma PrefixIsNotGreater(a: string, b: string)
    requires IsPrefix(a, b)
    ensures !Less(b, a) && (a != b ==> Less(a, b))
  {
    assert b == a + b[|a|..] && a == a + "";
    LessSame(a, "", b[|a|..]);
    LessSame(a, b[|a|..], "");
  }

  // ---- The substitutions on a sorted line ----

  predicate NoX(s: string) {
    forall i | 0 <= i < |s| :: s[i] != 'x'
  }

  lemma {:induction false} NothingToReplace(line: string, pattern: string, with: string, i: nat)
    requires i <= |line| && pattern != "" && pattern[0] == 'x'
    requires forall j | i <= j < |line| :: line[j] != 'x'
    ensures Substituted(line, pattern, with, i) == line
    decreases |line| - i
  {
    if i + |pattern| <= |line| {
      assert line[i..i + |pattern|][0] == line[i];
    }
    if i < |line| {
      NothingToReplace(line, pattern, with, i + 1);
    }
  }

  /** The pattern can only match at the leading x, and does if it is a prefix of the line. */
  lemma SubstituteLine(d: string, p: string, with: string)
    requires NoX(d) && NoX(p)
    ensures Substitute("x" + d, "x" + p, with) == if IsPrefix(p, d) then with + d[|p|..] else "x" + d
  {
    var line, pattern := "x" + d, "x" + p;
    if IsPrefix(p, d) {
      assert line[0..|pattern|] == pattern;
      assert line[..0] + with + line[|pattern|..] == with + d[|p|..];
    } else {
      if |pattern| <= |line| {
        assert line[0..|pattern|] == "x" + d[..|p|];
        assert pattern[1..] == p && ("x" + d[..|p|])[1..] == d[..|p|];
      }
      NothingToReplace(line, pattern, with, 1);
    }
  }

  /** Both substitutions on the chosen line: the first decides if its pattern is a prefix. */
  lemma TwoSubstitutions(d: string, a: string, b: string, first: string, second: string)
    requires NoX(d) && NoX(a) && NoX(b) && NoX(first)
    requires IsPrefix(a, d) || d == b
    ensures Substitute(Substitute("x" + d, "x" + a, first), "x" + b, second) ==
            if IsPrefix(a, d) then first + d[|a|..] else second
  {
    SubstituteLine(d, a, first);
    if IsPrefix(a, d) {
      NothingToReplace(first + d[|a|..], "x" + b, second, 0);
    } else {
      SubstituteLine(d, b, second);
      assert second + d[|b|..] == second;
    }
  }

  /** The output of each operator on two strings of digits. */
  lemma OutputIs(op: Op, a: string, b: string)
    requires NoX(a) && NoX(b)
    ensures Output(op, a, b) ==
      match op
      case Lt => if !Less(a, b) then "false" else if IsPrefix(a, b) then "false" + b[|a|..] else "true"
      case Gt => if Less(b, a) then "true" else "false"
      case Le => if Less(b, a) then "false" else "true"
      case Ge => if !Less(a, b) then "true" else if IsPrefix(a, b) then "true" + b[|a|..] else "false"
  {
    LessSame("x", a, b);
    LessSame("x", b, a);
    if IsPrefix(a, b) { PrefixIsNotGreater(a, b); }
    match op
    case Lt => TwoSubstitutions(if Less(a, b) then b else a, a, b, "false", "true");
    case Gt => TwoSubstitutions(if Less(b, a) then b else a, a, b, "false", "true");
    case Le => TwoSubstitutions(if Less(b, a) then b else a, a, b, "true", "false");
    case Ge => TwoSubstitutions(if Less(a, b) then b else a, a, b, "true", "false");
  }

  /** The verdict of an operator on two strings of digits. */
  predicate TextVerdict(op: Op, a: string, b: string) {
    match op
    case Lt => Less(a, b) && !IsPrefix(a, b)
    case Gt => Less(b, a)
    case Le => !Less(b, a)
    case Ge => !Less(a, b)
  }

  /** Only "true" counts. */
  lemma OutputIsTrue(op: Op, a: string, b: string)
    requires NoX(a) && NoX(b)
    ensures Output(op, a, b) == "true" <==> TextVerdict(op, a, b)
  {
    OutputIs(op, a, b);
    if Less(a, b) && IsPrefix(a, b) {
      LessIsStrictTotalOrder(a, a, a);
      assert a != b;
      assert |"true" + b[|a|..]| > 4;
      assert ("false" + b[|a|..])[0] != "true"[0];
    }
  }

  /** The output is "true" or "false" unless `lt` or `ge` meets text of which the first is the start. */
  lemma OutputIsBoolean(op: Op, a: string, b: string)
    requires NoX(a) && NoX(b)
    ensures Output(op, a, b) in ["true", "false"] <==> !((op == Lt || op == Ge) && IsPrefix(a, b) && a != b)
  {
    OutputIs(op, a, b);
    if IsPrefix(a, b) {
      PrefixIsNotGreater(a, b);
      if a != b {
        assert |"true" + b[|a|..]| > 4 && |"false" + b[|a|..]| > 5;
        assert ("true" + b[|a|..])[0] != "false"[0];
      }
    }
  }

  // ---- Components ----

  function Values(runs: List<string>): List<nat> {
    match runs
    case Nil => Nil
    case Cons(run, rest) => Cons(Value(run), Values(rest))
  }

  /** The numbers of a version, in order. */
  function Components(version: string): List<nat> {
    Values(Runs(version, 0))
  }

  /** Every run is one or more digits. */
  predicate RunsOk(runs: List<string>) {
    match runs
    case Nil => true
    case Cons(run, rest) => run != "" && AllDigits(run) && RunsOk(rest)
  }

  lemma {:induction false} RunsAreOk(s: string, i: nat)
    requires i <= |s|
    ensures RunsOk(Runs(s, i))
    decreases |s| - i
  {
    if i < |s| && IsDigit(s[i]) {
      var e := DigitRun(s, i + 1);
      DigitRunIsDigits(s, i);
      assert DigitRun(s, i) == e;
      RunsAreOk(s, e);
    } else if i < |s| {
      RunsAreOk(s, i + 1);
    }
  }

  /** Every run is one to four digits. */
  predicate ShortRuns(runs: List<string>) {
    match runs
    case Nil => true
    case Cons(run, rest) => 0 < |run| <= 4 && AllDigits(run) && ShortRuns(rest)
  }

  /** No number of the version has more than four digits. */
  predicate Short(version: string) {
    ShortRuns(Runs(version, 0))
  }

  /** A version of one number is short exactly if it has one to four digits. */
  lemma ShortOne(run: string)
    requires run != "" && AllDigits(run)
    ensures ShortRuns(Cons(run, Nil)) <==> |run| < 5
  {
  }

  /** Component by component; a version that runs out first is smaller. */
  predicate LexLess(p: List<nat>, q: List<nat>) {
    match (p, q)
    case (_, Nil) => false
    case (Nil, Cons(_, _)) => true
    case (Cons(x, p'), Cons(y, q')) => x < y || (x == y && LexLess(p', q'))
  }

  predicate ListPrefix<T(==)>(p: List<T>, q: List<T>) {
    match (p, q)
    case (Nil, _) => true
    case (Cons(_, _), Nil) => false
    case (Cons(x, p'), Cons(y, q')) => x == y && ListPrefix(p', q')
  }

  predicate ProperPrefix<T(==)>(p: List<T>, q: List<T>) {
    ListPrefix(p, q) && p != q
  }

  lemma LessDigit(c: char, d: char)
    ensures Less([c], [d]) <==> c < d
  {
    assert StrcmpFrom([c], [d], 1) == 0;
  }

  /** Digit strings of equal length are ordered as the numbers they denote. */
  lemma {:induction false} DigitOrder(x: string, y: string)
    requires |x| == |y| && AllDigits(x) && AllDigits(y)
    ensures Less(x, y) <==> Value(x) < Value(y)
    ensures x == y <==> Value(x) == Value(y)
  {
    if x != "" {
      var n := |x| - 1;
      DigitOrder(x[..n], y[..n]);
      assert x == x[..n] + [x[n]] && y == y[..n] + [y[n]];
      LessByHead(x[..n], [x[n]], y[..n], [y[n]]);
      LessDigit(x[n], y[n]);
    } else {
      assert x == y;
      LessIsStrictTotalOrder(x, y, x);
    }
  }

  /** Padding keeps the number; only longer runs exceed four digits. */
  lemma PaddedKeeps(run: string)
    requires run != "" && AllDigits(run)
    ensures AllDigits(Padded(run)) && Value(Padded(run)) == Value(run)
    ensures |Padded(run)| == if |run| <= 4 then 4 else |run|
  {
    ValueAppend("0", run);
    ValueAppend("00", run);
    ValueAppend("000", run);
    assert Value("0") == 0 by { assert "0"[..0] == ""; }
    assert Value("00") == 0 by { assert "00"[..1] == "0"; }
    assert Value("000") == 0 by { assert "000"[..2] == "00"; }
  }

  lemma {:induction false} GroupedIsDigits(runs: List<string>)
    requires RunsOk(runs)
    ensures AllDigits(Grouped(runs)) && NoX(Grouped(runs))
  {
    if runs.Cons? {
      PaddedKeeps(runs.head);
      GroupedIsDigits(runs.tail);
    }
  }

  /** What the pipeline makes of a version is digits, and the groups of its runs. */
  lemma NormalisedIsDigits(version: string)
    ensures Normalised(version) == Grouped(Runs(version, 0)) && RunsOk(Runs(version, 0))
    ensures AllDigits(Normalised(version)) && NoX(Normalised(version))
  {
    PipelinePadsRuns(version);
    RunsAreOk(version, 0);
    GroupedIsDigits(Runs(version, 0));
  }

  lemma PrefixByHead(x: string, u: string, y: string, v: string)
    requires |x| == |y|
    ensures IsPrefix(x + u, y + v) <==> x == y && IsPrefix(u, v)
    ensures x + u == y + v <==> x == y && u == v
  {
    var a, b := x + u, y + v;
    assert a[..|x|] == x && b[..|y|] == y && a[|x|..] == u && b[|y|..] == v;
    if IsPrefix(a, b) {
      assert b[..|a|][..|x|] == b[..|x|];
      assert v[..|u|] == b[..|a|][|x|..];
    }
    if x == y && IsPrefix(u, v) {
      assert b[..|a|] == y + v[..|u|];
    }
  }

  /** Four-digit groups compare as strings the way their components compare as lists. */
  lemma {:induction false} GroupsCompare(p: List<string>, q: List<string>)
    requires ShortRuns(p) && ShortRuns(q)
    ensures Less(Grouped(p), Grouped(q)) <==> LexLess(Values(p), Values(q))
    ensures IsPrefix(Grouped(p), Grouped(q)) <==> ListPrefix(Values(p), Values(q))
    ensures Grouped(p) == Grouped(q) <==> Values(p) == Values(q)
  {
    if p.Cons? { PaddedKeeps(p.head); }
    if q.Cons? { PaddedKeeps(q.head); }
    if p.Cons? && q.Cons? {
      GroupsCompare(p.tail, q.tail);
      DigitOrder(Padded(p.head), Padded(q.head));
      LessByHead(Padded(p.head), Grouped(p.tail), Padded(q.head), Grouped(q.tail));
      PrefixByHead(Padded(p.head), Grouped(p.tail), Padded(q.head), Grouped(q.tail));
    }
  }

  /**
  For versions whose numbers have at most four digits, `ge`, `gt` and `le` are
  component-wise comparison; `lt` also needs the first not to be a prefix of
  the second.
  */
  lemma OrderLaw(a: string, b: string)
    requires Short(a) && Short(b)
    ensures Verdict(Ge, a, b) <==> !LexLess(Components(a), Components(b))
    ensures Verdict(Gt, a, b) <==> LexLess(Components(b), Components(a))
    ensures Verdict(Le, a, b) <==> !LexLess(Components(b), Components(a))
    ensures Verdict(Lt, a, b) <==> LexLess(Components(a), Components(b)) && !ListPrefix(Components(a), Components(b))
  {
    NormalisedIsDigits(a);
    NormalisedIsDigits(b);
    GroupsCompare(Runs(a, 0), Runs(b, 0));
    GroupsCompare(Runs(b, 0), Runs(a, 0));
    OutputIsTrue(Ge, Normalised(a), Normalised(b));
    OutputIsTrue(Gt, Normalised(a), Normalised(b));
    OutputIsTrue(Le, Normalised(a), Normalised(b));
    OutputIsTrue(Lt, Normalised(a), Normalised(b));
  }

  lemma {:induction false} PrefixIsLess(p: List<nat>, q: List<nat>)
    requires ListPrefix(p, q)
    ensures LexLess(p, q) <==> p != q
  {
    if p.Cons? { PrefixIsLess(p.tail, q.tail); }
  }

  /** The `lt` verdict is right exactly when the first version is not a proper prefix of the second. */
  lemma LtIsRightIff(a: string, b: string)
    requires Short(a) && Short(b)
    ensures (Verdict(Lt, a, b) <==> LexLess(Components(a), Components(b))) <==>
            !ProperPrefix(Components(a), Components(b))
  {
    OrderLaw(a, b);
    if ListPrefix(Components(a), Components(b)) {
      PrefixIsLess(Components(a), Components(b));
    }
  }

  // ---- Where the verdicts surprise ----

  /** A run of digits at byte `i`, up to a byte that is none. */
  lemma RunAt(s: string, i: nat, x: string)
    requires x != "" && AllDigits(x) && i + |x| <= |s| && s[i..i + |x|] == x
    requires i + |x| < |s| ==> !IsDigit(s[i + |x|])
    ensures Runs(s, i) == Cons(x, Runs(s, i + |x|))
  {
    assert s[i] == s[i..i + |x|][0];
    assert s[i + 1..i + |x|] == s[i..i + |x|][1..];
    DigitRunStops(s, i + 1, i + |x|);
  }

  /** The runs of two numbers with a dot between them. */
  lemma TwoRuns(x: string, y: string)
    requires x != "" && y != "" && AllDigits(x) && AllDigits(y)
    ensures Runs(x + "." + y, 0) == Cons(x, Cons(y, Nil))
  {
    var s, i := x + "." + y, |x|;
    assert s[0..i] == x && s[i] == '.' && s[i + 1..|s|] == y;
    RunAt(s, 0, x);
    RunAt(s, i + 1, y);
    assert Runs(s, i) == Runs(s, i + 1);
  }

  lemma ThreeSlices(x: string, y: string, z: string)
    ensures var s, i, j := x + "." + y + "." + z, |x|, |x| + 1 + |y|;
            s[0..i] == x && s[i] == '.' && s[i + 1..j] == y && s[j] == '.' && s[j + 1..|s|] == z
  {
  }

  /** The runs of three. */
  lemma ThreeRuns(x: string, y: string, z: string)
    requires x != "" && y != "" && z != "" && AllDigits(x) && AllDigits(y) && AllDigits(z)
    ensures Runs(x + "." + y + "." + z, 0) == Cons(x, Cons(y, Cons(z, Nil)))
  {
    var s, i, j := x + "." + y + "." + z, |x|, |x| + 1 + |y|;
    ThreeSlices(x, y, z);
    RunAt(s, 0, x);
    RunAt(s, i + 1, y);
    RunAt(s, j + 1, z);
    assert Runs(s, i) == Runs(s, i + 1) && Runs(s, j) == Runs(s, j + 1);
  }

  /** 3.15 and 3.15.8 */
  lemma ExampleRuns()
    ensures Runs("3.15", 0) == Cons("3", Cons("15", Nil))
    ensures Runs("3.15.8", 0) == Cons("3", Cons("15", Cons("8", Nil)))
  {
    TwoRuns("3", "15");
    ThreeRuns("3", "15", "8");
    assert "3" + "." + "15" == "3.15" && "3" + "." + "15" + "." + "8" == "3.15.8";
  }

  /** 3.15 is less than 3.15.8, but `lt` says it is not. */
  lemma LtMissesLongerVersion()
    ensures LexLess(Components("3.15"), Components("3.15.8"))
    ensures !Verdict(Lt, "3.15", "3.15.8")
  {
    ExampleRuns();
    OrderLaw("3.15", "3.15.8");
  }

  /** The variable ends up "true" or "false" exactly unless `lt` or `ge` meets a proper prefix. */
  lemma OutputIsBooleanIff(op: Op, a: string, b: string)
    requires Short(a) && Short(b)
    ensures Output(op, Normalised(a), Normalised(b)) in ["true", "false"] <==>
            !((op == Lt || op == Ge) && ProperPrefix(Components(a), Components(b)))
  {
    NormalisedIsDigits(a);
    NormalisedIsDigits(b);
    GroupsCompare(Runs(a, 0), Runs(b, 0));
    OutputIsBoolean(op, Normalised(a), Normalised(b));
  }

  /** What `lt` leaves when the first text starts the second. */
  lemma LtLeavesRest(x: string, rest: string)
    requires NoX(x) && NoX(x + rest) && rest != ""
    ensures Output(Lt, x, x + rest) == "false" + rest
  {
    assert (x + rest)[..|x|] == x && (x + rest)[|x|..] == rest;
    PrefixIsNotGreater(x, x + rest);
    OutputIs(Lt, x, x + rest);
  }

  lemma OneGroup(a: string)
    ensures Grouped(Cons(a, Nil)) == Padded(a)
  {
    AppendNothing(Padded(a));
  }

  lemma TwoGroups(a: string, b: string)
    ensures Grouped(Cons(a, Cons(b, Nil))) == Padded(a) + Padded(b)
  {
    OneGroup(b);
  }

  lemma ThreeGroups(a: string, b: string, c: string)
    ensures Grouped(Cons(a, Cons(b, Cons(c, Nil)))) == Padded(a) + Padded(b) + Padded(c)
  {
    TwoGroups(b, c);
    AppendAssociative(Padded(a), Padded(b), Padded(c));
  }

  /** One more number: what `lt` leaves is "false" and the padded number. */
  lemma LtLeavesNumber(x: string, y: string, z: string)
    requires x != "" && y != "" && z != "" && AllDigits(x) && AllDigits(y) && AllDigits(z)
    ensures Output(Lt, Normalised(x + "." + y), Normalised(x + "." + y + "." + z)) == "false" + Padded(z)
  {
    TwoRuns(x, y);
    ThreeRuns(x, y, z);
    NormalisedIsDigits(x + "." + y);
    NormalisedIsDigits(x + "." + y + "." + z);
    TwoGroups(x, y);
    ThreeGroups(x, y, z);
    PaddedKeeps(z);
    LtLeavesRest(Normalised(x + "." + y), Padded(z));
  }

  /** Comparing 3.15 with 3.15.8, `lt` leaves a variable that is neither word. */
  lemma OutputIsNeither()
    ensures Output(Lt, Normalised("3.15"), Normalised("3.15.8")) == "false0008"
  {
    LtLeavesNumber("3", "15", "8");
    assert "3" + "." + "15" == "3.15" && "3" + "." + "15" + "." + "8" == "3.15.8";
    assert "false" + Padded("8") == "false0008";
  }
}
