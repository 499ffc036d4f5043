/**
C strings. A string stands for the bytes before the terminating NUL, one char
per byte, so ordering chars by their code is ordering bytes as unsigned.
*/
module CStrings {
  const NUL := '\0'

  predicate IsCString(s: string) {
    forall i | 0 <= i < |s| :: NUL < s[i] && s[i] as int < 256
  }

  /** A `char *`: NULL or the string it points to. */
  datatype CharPtr = Null | Str(text: string)

  /** The `strisnull` macro: NULL or the empty string. */
  predicate IsBlank(s: CharPtr) {
    s.Null? || s.text == ""
  }

  function TextOf(s: CharPtr): string {
    if s.Str? then s.text else ""
  }

  // ---- strcmp ----

  /** The sign of `strcmp` from byte `i` on, where the strings agree so far; NUL is the smallest byte. */
  function StrcmpFrom(a: string, b: string, i: nat): int
    requires i <= |a| && i <= |b|
    decreases |a| - i
  {
    if i == |a| then (if i == |b| then 0 else -1)
    else if i == |b| then 1
    else if a[i] != b[i] then a[i] as int - b[i] as int
    else StrcmpFrom(a, b, i + 1)
  }

  function Strcmp(a: string, b: string): int {
    StrcmpFrom(a, b, 0)
  }

  predicate Less(a: string, b: string) {
    Strcmp(a, b) < 0
  }

  /** `a` and `b` agree on their first `k` bytes and `b` is the larger at byte `k`. */
  predicate SplitsAt(a: string, b: string, k: nat) {
    && k <= |a| && k < |b| && (forall j | 0 <= j < k :: a[j] == b[j])
    && (k == |a| || a[k] < b[k])
  }

  /** `strcmp` decides at the first byte where the strings part, or finds none. */
  lemma {:induction false} StrcmpFromMeaning(a: string, b: string, i: nat)
    requires i <= |a| && i <= |b| && forall j | 0 <= j < i :: a[j] == b[j]
    ensures StrcmpFrom(a, b, i) == 0 <==> a == b
    ensures StrcmpFrom(a, b, i) < 0 <==> exists k: nat :: SplitsAt(a, b, k)
    ensures StrcmpFrom(a, b, i) > 0 <==> exists k: nat :: SplitsAt(b, a, k)
    decreases |a| - i
  {
    if i < |a| && i < |b| && a[i] == b[i] {
      StrcmpFromMeaning(a, b, i + 1);
    } else {
      assert StrcmpFrom(a, b, i) < 0 ==> SplitsAt(a, b, i);
      assert StrcmpFrom(a, b, i) > 0 ==> SplitsAt(b, a, i);
      forall k: nat | SplitsAt(a, b, k) || SplitsAt(b, a, k) ensures k == i {
        PartOnce(a, b, k, i);
      }
    }
  }

  lemma PartOnce(a: string, b: string, k: nat, i: nat)
    requires SplitsAt(a, b, k) || SplitsAt(b, a, k)
    requires i <= |a| && i <= |b| && forall j | 0 <= j < i :: a[j] == b[j]
    requires i == |a| || i == |b| || a[i] != b[i]
    ensures k == i
  {
  }

  /** `strcmp` orders by the first byte at which the strings part, compared as unsigned. */
  lemma LessIsLexicographic(a: string, b: string)
    ensures Less(a, b) <==> exists k: nat :: SplitsAt(a, b, k)
    ensures Strcmp(a, b) == 0 <==> a == b
    ensures Strcmp(a, b) > 0 <==> Less(b, a)
  {
    StrcmpFromMeaning(a, b, 0);
    StrcmpFromMeaning(b, a, 0);
  }

  lemma SplitsTransitive(a: string, b: string, c: string, j: nat, k: nat)
    requires SplitsAt(a, b, j) && SplitsAt(b, c, k)
    ensures SplitsAt(a, c, if j < k then j else k)
  {
  }

  /** `strcmp` is a strict total order. */
  lemma LessIsStrictTotalOrder(a: string, b: string, c: string)
    ensures !Less(a, a)
    ensures Less(a, b) ==> !Less(b, a)
    ensures a == b || Less(a, b) || Less(b, a)
    ensures Less(a, b) && Less(b, c) ==> Less(a, c)
  {
    LessIsLexicographic(a, a);
    LessIsLexicographic(a, b);
    LessIsLexicographic(b, c);
    LessIsLexicographic(a, c);
    if Less(a, b) && Less(b, c) {
      var j: nat :| SplitsAt(a, b, j);
      var k: nat :| SplitsAt(b, c, k);
      SplitsTransitive(a, b, c, j, k);
    }
  }

  /** Not-greater followed by less, or less followed by not-greater, is less. */
  lemma LessThrough(a: string, b: string, c: string)
    ensures Less(a, b) && !Less(c, b) ==> Less(a, c)
    ensures !Less(b, a) && Less(b, c) ==> Less(a, c)
    ensures !Less(b, a) && !Less(c, b) ==> !Less(c, a)
  {
    LessIsStrictTotalOrder(a, b, c);
    LessIsStrictTotalOrder(b, c, a);
    LessIsStrictTotalOrder(c, a, b);
  }

  // ---- strncmp ----

  /** `0 == strncmp(a, b, n)`: byte by byte, stopping after `n` bytes or a shared NUL. */
  predicate StrncmpEqual(a: string, b: string, n: nat) {
    n == 0
    || (a == "" && b == "")
    || (a != "" && b != "" && a[0] == b[0] && StrncmpEqual(a[1..], b[1..], n - 1))
  }

  /** A count larger than the literal's length makes `strncmp` an equality test, otherwise a prefix test. */
  lemma {:induction false} StrncmpMeaning(a: string, b: string, n: nat)
    ensures StrncmpEqual(a, b, n) <==> a == b || (n <= |a| && n <= |b| && a[..n] == b[..n])
  {
    if n > 0 && a != "" && b != "" {
      StrncmpMeaning(a[1..], b[1..], n - 1);
      assert a == [a[0]] + a[1..] && b == [b[0]] + b[1..];
      if n <= |a| && n <= |b| {
        assert a[..n] == [a[0]] + a[1..][..n - 1] && b[..n] == [b[0]] + b[1..][..n - 1];
      }
    }
  }
}
