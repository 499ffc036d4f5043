/**
The version comparison of m4/ax_compare_version.m4: five `sed` substitutions
turn a version into one string of four-digit groups, and `sort` with two more
substitutions, or a padded equality test, gives the verdict.
*/
module Versions {
  import opened Decimals
  import opened Sequences

  datatype List<T> = Nil | Cons(head: T, tail: List<T>)

  // ---- The substitutions ----

  /**
  `s/\([0-9]*\)/Z\1Z/g` from byte `i` on: every run of digits, and every empty
  match that does not touch the match before it, is enclosed in Zs.
  */
  function Enclose(s: string, i: nat, touching: bool): string
    requires i <= |s|
    decreases |s| - i
  {
    var empty := if touching then "" else "ZZ";
    if i == |s| then empty
    else if IsDigit(s[i]) then
      var e := DigitRun(s, i + 1);
      "Z" + s[i..e] + "Z" + Enclose(s, e, true)
    else empty + [s[i]] + Enclose(s, i + 1, false)
  }

  /** `Z`, `k` digits, `Z` at byte `i`. */
  predicate EnclosedAt(s: string, i: nat, k: nat) {
    i + k + 1 < |s| && s[i] == 'Z' && (forall x | i < x <= i + k :: IsDigit(s[x])) && s[i + k + 1] == 'Z'
  }

  /** `s/Z\([0-9]{k}\)Z/Z0\1Z/g` from byte `i` on. */
  function PadRuns(s: string, i: nat, k: nat): string
    requires i <= |s|
    decreases |s| - i
  {
    if i == |s| then ""
    else if EnclosedAt(s, i, k) then "Z0" + s[i + 1..i + 1 + k] + "Z" + PadRuns(s, i + k + 2, k)
    else [s[i]] + PadRuns(s, i + 1, k)
  }

  /** `s/[^0-9]//g` from byte `i` on. */
  function OnlyDigits(s: string, i: nat): string
    requires i <= |s|
    decreases |s| - i
  {
    if i == |s| then "" else (if IsDigit(s[i]) then [s[i]] else "") + OnlyDigits(s, i + 1)
  }

  /** The whole pipeline applied to one version. */
  function Normalised(version: string): string {
    var s0 := Enclose(version, 0, false);
    var s1 := PadRuns(s0, 0, 1);
    var s2 := PadRuns(s1, 0, 2);
    var s3 := PadRuns(s2, 0, 3);
    OnlyDigits(s3, 0)
  }

  // ---- What the pipeline computes ----

  /** The runs of digits of a version, in order. */
  function Runs(s: string, i: nat): List<string>
    requires i <= |s|
    decreases |s| - i
  {
    if i == |s| then Nil
    else if IsDigit(s[i]) then
      var e := DigitRun(s, i + 1);
      Cons(s[i..e], Runs(s, e))
    else Runs(s, i + 1)
  }

  /** A run filled with zeros on the left up to four digits. */
  function Padded(run: string): string {
    if |run| == 1 then "000" + run
    else if |run| == 2 then "00" + run
    else if |run| == 3 then "0" + run
    else run
  }

  function Grouped(runs: List<string>): string {
    match runs
    case Nil => ""
    case Cons(run, rest) => Padded(run) + Grouped(rest)
  }

  /** The text between substitutions: enclosed runs, and single bytes that are no digits. */
  datatype Tokens = End | Run(digits: string, rest: Tokens) | Other(c: char, rest: Tokens)

  predicate TokensOk(ts: Tokens) {
    match ts
    case End => true
    case Run(d, rest) => d != "" && AllDigits(d) && TokensOk(rest)
    case Other(c, rest) => !IsDigit(c) && TokensOk(rest)
  }

  function Text(ts: Tokens): string {
    match ts
    case End => ""
    case Run(d, rest) => "Z" + d + "Z" + Text(rest)
    case Other(c, rest) => [c] + Text(rest)
  }

  function Tokenised(s: string, i: nat, touching: bool): Tokens
    requires i <= |s|
    decreases |s| - i
  {
    if i < |s| && IsDigit(s[i]) then
      var e := DigitRun(s, i + 1);
      Run(s[i..e], Tokenised(s, e, true))
    else
      Gap(touching, if i == |s| then End else Other(s[i], Tokenised(s, i + 1, false)))
  }

  /** The two Zs of an empty match, unless it touches the match before it. */
  function Gap(touching: bool, rest: Tokens): Tokens {
    if touching then rest else Other('Z', Other('Z', rest))
  }

  function Bumped(ts: Tokens, k: nat): Tokens {
    match ts
    case End => End
    case Run(d, rest) => Run(if |d| == k then "0" + d else d, Bumped(rest, k))
    case Other(c, rest) => Other(c, Bumped(rest, k))
  }

  function RunsOf(ts: Tokens): List<string> {
    match ts
    case End => Nil
    case Run(d, rest) => Cons(d, RunsOf(rest))
    case Other(_, rest) => RunsOf(rest)
  }

  lemma {:induction false} DigitRunIsDigits(s: string, i: nat)
    requires i <= |s|
    ensures AllDigits(s[i..DigitRun(s, i)])
    decreases |s| - i
  {
    if i < |s| && IsDigit(s[i]) {
      DigitRunIsDigits(s, i + 1);
      assert s[i..DigitRun(s, i)] == [s[i]] + s[i + 1..DigitRun(s, i + 1)];
    }
  }

  lemma TwoOthers(rest: Tokens)
    ensures Text(Other('Z', Other('Z', rest))) == "ZZ" + Text(rest)
  {
    assert Text(Other('Z', Other('Z', rest))) == ['Z'] + Text(Other('Z', rest)) == ['Z'] + (['Z'] + Text(rest));
  }

  lemma GapIsEmpty(touching: bool, rest: Tokens)
    ensures Text(Gap(touching, rest)) == (if touching then "" else "ZZ") + Text(rest)
    ensures TokensOk(Gap(touching, rest)) == TokensOk(rest)
    ensures RunsOf(Gap(touching, rest)) == RunsOf(rest)
  {
    TwoOthers(rest);
    AppendAssociative("", "", Text(rest));
  }

  lemma {:induction false} EncloseIsText(s: string, i: nat, touching: bool)
    requires i <= |s|
    ensures Enclose(s, i, touching) == Text(Tokenised(s, i, touching))
    ensures TokensOk(Tokenised(s, i, touching))
    ensures RunsOf(Tokenised(s, i, touching)) == Runs(s, i)
    decreases |s| - i
  {
    var empty := if touching then "" else "ZZ";
    if i == |s| {
      GapIsEmpty(touching, End);
      assert empty + "" == empty;
    } else if IsDigit(s[i]) {
      var e := DigitRun(s, i + 1);
      EncloseIsText(s, e, true);
      DigitRunIsDigits(s, i);
    } else {
      var after := Tokenised(s, i + 1, false);
      EncloseIsText(s, i + 1, false);
      GapIsEmpty(touching, Other(s[i], after));
      AppendAssociative(empty, [s[i]], Text(after));
    }
  }

  lemma TextStartsNoDigit(ts: Tokens)
    requires TokensOk(ts)
    ensures Text(ts) == "" || !IsDigit(Text(ts)[0])
  {
  }

  /** A run of another length is not matched at its opening Z, at a digit or at its closing Z. */
  lemma NoMatchInRun(pre: string, d: string, post: string, k: nat, j: nat)
    requires k > 0 && d != "" && AllDigits(d) && |d| != k && j < |d| + 2
    requires post == "" || !IsDigit(post[0])
    ensures !EnclosedAt(pre + ("Z" + d + "Z") + post, |pre| + j, k)
  {
    var s, n := pre + ("Z" + d + "Z") + post, |pre|;
    assert s[n] == 'Z' && s[n + 1 + |d|] == 'Z';
    assert forall x | 0 <= x < |d| :: s[n + 1 + x] == d[x];
    assert post != "" ==> s[n + 2 + |d|] == post[0];
    assert |d| > k ==> s[n + 1 + k] == d[k];
    assert 0 < j <= |d| ==> s[n + j] == d[j - 1];
  }

  /** Nothing matches at the bytes from `i` up to `e`. */
  predicate NoMatch(s: string, i: nat, e: nat, k: nat)
    decreases e - i
  {
    i >= e || (!EnclosedAt(s, i, k) && NoMatch(s, i + 1, e, k))
  }

  lemma {:induction false} NoMatchFrom(pre: string, d: string, post: string, k: nat, j: nat)
    requires k > 0 && d != "" && AllDigits(d) && |d| != k && j <= |d| + 2
    requires post == "" || !IsDigit(post[0])
    ensures NoMatch(pre + ("Z" + d + "Z") + post, |pre| + j, |pre| + |d| + 2, k)
    decreases |d| + 2 - j
  {
    if j < |d| + 2 {
      NoMatchInRun(pre, d, post, k, j);
      NoMatchFrom(pre, d, post, k, j + 1);
    }
  }

  /** Bytes at which nothing matches are copied. */
  lemma {:induction false} PadSkips(s: string, i: nat, e: nat, k: nat)
    requires i <= e <= |s| && NoMatch(s, i, e, k)
    ensures PadRuns(s, i, k) == s[i..e] + PadRuns(s, e, k)
    decreases e - i
  {
    if i < e {
      PadSkips(s, i + 1, e, k);
      assert s[i..e] == [s[i]] + s[i + 1..e];
    }
  }

  lemma RunBytes(pre: string, d: string, post: string)
    ensures var s, n := pre + ("Z" + d + "Z") + post, |pre|;
            s[n] == 'Z' && s[n + 1 + |d|] == 'Z' && s[n + 1..n + 1 + |d|] == d
  {
  }

  /** A run is matched when its own length is asked for. */
  lemma MatchInRun(pre: string, d: string, post: string)
    requires AllDigits(d)
    ensures var s, n := pre + ("Z" + d + "Z") + post, |pre|;
            EnclosedAt(s, n, |d|) && s[n + 1..n + 1 + |d|] == d
  {
    RunBytes(pre, d, post);
    var s, n := pre + ("Z" + d + "Z") + post, |pre|;
    forall x | n < x <= n + |d| ensures IsDigit(s[x]) {
      assert s[x] == s[n + 1..n + 1 + |d|][x - n - 1];
    }
  }

  /** What one padding substitution makes of one enclosed run. */
  lemma PadOneRun(pre: string, d: string, post: string, k: nat)
    requires k > 0 && d != "" && AllDigits(d) && (post == "" || !IsDigit(post[0]))
    ensures var s, whole := pre + ("Z" + d + "Z") + post, "Z" + d + "Z";
            PadRuns(s, |pre|, k) ==
              "Z" + (if |d| == k then "0" + d else d) + "Z" + PadRuns(s, |pre| + |whole|, k)
  {
    var whole := "Z" + d + "Z";
    var s, n := pre + whole + post, |pre|;
    if |d| == k {
      MatchInRun(pre, d, post);
      assert "Z0" + d + "Z" == "Z" + ("0" + d) + "Z";
    } else {
      NoMatchFrom(pre, d, post, k, 0);
      PadSkips(s, n, n + |whole|, k);
      assert s[n..n + |whole|] == whole;
    }
  }

  /** A byte outside the runs is copied. */
  lemma PadOneByte(pre: string, c: char, post: string, k: nat)
    requires k > 0 && (post == "" || !IsDigit(post[0]))
    ensures var s := pre + [c] + post;
            PadRuns(s, |pre|, k) == [c] + PadRuns(s, |pre| + 1, k)
  {
    var s := pre + [c] + post;
    assert s[|pre|] == c && (post != "" ==> s[|pre| + 1] == post[0]);
  }

  /** One padding substitution adds a zero to the runs of `k` digits and leaves the rest. */
  lemma {:induction false} PadIsBump(pre: string, ts: Tokens, k: nat)
    requires TokensOk(ts) && k > 0
    ensures PadRuns(pre + Text(ts), |pre|, k) == Text(Bumped(ts, k))
    decreases ts
  {
    match ts
    case End =>
    case Run(d, rest) =>
      var whole := "Z" + d + "Z";
      PadIsBump(pre + whole, rest, k);
      TextStartsNoDigit(rest);
      PadOneRun(pre, d, Text(rest), k);
      AppendAssociative(pre, whole, Text(rest));
    case Other(c, rest) =>
      PadIsBump(pre + [c], rest, k);
      TextStartsNoDigit(rest);
      PadOneByte(pre, c, Text(rest), k);
      AppendAssociative(pre, [c], Text(rest));
  }

  lemma {:induction false} BumpedOk(ts: Tokens, k: nat)
    requires TokensOk(ts)
    ensures TokensOk(Bumped(ts, k))
  {
    match ts
    case End =>
    case Run(_, rest) => BumpedOk(rest, k);
    case Other(_, rest) => BumpedOk(rest, k);
  }

  function Digits3(d: string): string {
    var d1 := if |d| == 1 then "0" + d else d;
    var d2 := if |d1| == 2 then "0" + d1 else d1;
    if |d2| == 3 then "0" + d2 else d2
  }

  lemma ThreeBumpsPad(d: string)
    ensures Digits3(d) == Padded(d)
  {
    assert "0" + ("0" + ("0" + d)) == "000" + d && "0" + ("0" + d) == "00" + d;
  }

  function AllRuns(ts: Tokens): string {
    match ts
    case End => ""
    case Run(d, rest) => d + AllRuns(rest)
    case Other(_, rest) => AllRuns(rest)
  }

  lemma DropByte(s: string, i: nat)
    requires i < |s| && !IsDigit(s[i])
    ensures OnlyDigits(s, i) == OnlyDigits(s, i + 1)
  {
    assert "" + OnlyDigits(s, i + 1) == OnlyDigits(s, i + 1);
  }

  lemma StripRunAt(s: string, n: nat, d: string)
    requires n + |d| + 2 <= |s| && s[n] == 'Z' && s[n + 1..n + 1 + |d|] == d && s[n + 1 + |d|] == 'Z' && AllDigits(d)
    ensures OnlyDigits(s, n) == d + OnlyDigits(s, n + |d| + 2)
  {
    DropByte(s, n);
    KeepsDigits(s, n + 1, |d|);
    DropByte(s, n + 1 + |d|);
  }

  lemma {:induction false} StripOneRun(pre: string, d: string, post: string)
    requires AllDigits(d)
    ensures var s := pre + ("Z" + d + "Z") + post;
            OnlyDigits(s, |pre|) == d + OnlyDigits(s, |pre| + |d| + 2)
  {
    RunBytes(pre, d, post);
    StripRunAt(pre + ("Z" + d + "Z") + post, |pre|, d);
  }

  lemma StripOneByte(pre: string, c: char, post: string)
    requires !IsDigit(c)
    ensures var s := pre + [c] + post;
            OnlyDigits(s, |pre|) == OnlyDigits(s, |pre| + 1)
  {
    assert (pre + [c] + post)[|pre|] == c;
    DropByte(pre + [c] + post, |pre|);
  }

  lemma {:induction false} StripsToRuns(pre: string, ts: Tokens)
    requires TokensOk(ts)
    ensures OnlyDigits(pre + Text(ts), |pre|) == AllRuns(ts)
    decreases ts
  {
    match ts
    case End =>
    case Run(d, rest) =>
      var whole := "Z" + d + "Z";
      StripsToRuns(pre + whole, rest);
      StripOneRun(pre, d, Text(rest));
      AppendAssociative(pre, whole, Text(rest));
    case Other(c, rest) =>
      StripsToRuns(pre + [c], rest);
      StripOneByte(pre, c, Text(rest));
      AppendAssociative(pre, [c], Text(rest));
  }

  lemma {:induction false} KeepsDigits(s: string, i: nat, n: nat)
    requires i + n <= |s| && AllDigits(s[i..i + n])
    ensures OnlyDigits(s, i) == s[i..i + n] + OnlyDigits(s, i + n)
    decreases n
  {
    if n > 0 {
      assert s[i] == s[i..i + n][0];
      assert s[i + 1..i + n] == s[i..i + n][1..];
      KeepsDigits(s, i + 1, n - 1);
      assert s[i..i + n] == [s[i]] + s[i + 1..i + n];
    }
  }

  lemma {:induction false} BumpsAreGroups(ts: Tokens)
    ensures AllRuns(Bumped(Bumped(Bumped(ts, 1), 2), 3)) == Grouped(RunsOf(ts))
  {
    match ts
    case End =>
    case Run(d, rest) =>
      BumpsAreGroups(rest);
      ThreeBumpsPad(d);
    case Other(_, rest) =>
      BumpsAreGroups(rest);
  }

  /** The five substitutions pad every run of digits to four and drop everything else. */
  lemma PipelinePadsRuns(version: string)
    ensures Normalised(version) == Grouped(Runs(version, 0))
  {
    var t0 := Tokenised(version, 0, false);
    var t1 := Bumped(t0, 1);
    var t2 := Bumped(t1, 2);
    var t3 := Bumped(t2, 3);
    EncloseIsText(version, 0, false);
    BumpedOk(t0, 1);
    BumpedOk(t1, 2);
    BumpedOk(t2, 3);
    PadIsBump("", t0, 1);
    PadIsBump("", t1, 2);
    PadIsBump("", t2, 3);
    StripsToRuns("", t3);
    assert "" + Text(t0) == Text(t0) && "" + Text(t1) == Text(t1);
    assert "" + Text(t2) == Text(t2) && "" + Text(t3) == Text(t3);
    BumpsAreGroups(t0);
  }
}
