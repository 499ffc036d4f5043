/**
Character buffers: the concatenating copy `strcat2` of src/libzbxpgsql.c and
the multi-strings of src/pg_discovery.c, packed by one cursor and walked by
another.
*/
module Buffers {
  import opened CStrings
  import opened Sequences

  /** What a C reader sees at `pos`: the bytes up to the first NUL. */
  function TextAt(buf: string, pos: nat): string
    decreases |buf| - pos
  {
    if pos < |buf| && buf[pos] != NUL then [buf[pos]] + TextAt(buf, pos + 1) else ""
  }

  /** `text` written over the bytes from `pos` on. */
  function Overlay(buf: string, pos: nat, text: string): string
    requires pos + |text| <= |buf|
  {
    buf[..pos] + text + buf[pos + |text|..]
  }

  function Zeros(n: nat): (r: string)
    ensures |r| == n
  {
    seq(n, _ => NUL)
  }

  lemma {:induction false} TextAtTerminated(pre: string, text: string, post: string)
    requires IsCString(text)
    ensures TextAt(pre + text + [NUL] + post, |pre|) == text
    decreases |text|
  {
    var buf := pre + text + [NUL] + post;
    if text != "" {
      assert IsCString(text[1..]);
      TextAtTerminated(pre + [text[0]], text[1..], post);
      assert pre + [text[0]] + text[1..] + [NUL] + post == buf;
      assert buf[|pre|] == text[0];
    } else {
      assert buf[|pre|] == NUL;
    }
  }

  lemma OverlayStep(buf: string, pos: nat, text: string, k: nat)
    requires pos + |text| < |buf| && k <= |text|
    ensures Overlay(buf, pos, text[..k])[pos + k := (text + [NUL])[k]] == Overlay(buf, pos, (text + [NUL])[..k + 1])
  {
  }

  /**
  Append `src` to the string at `dest`; the result points at the terminating
  NUL. The caller has room for the longer string.
  */
  method Strcat2(buf: array?<char>, dest: nat, src: CharPtr) returns (end: nat)
    requires src.Str? ==> IsCString(src.text)
    requires buf != null && src.Str? ==> dest + |TextAt(buf[..], dest)| + |src.text| < buf.Length
    modifies buf
    ensures buf == null || src.Null? ==> end == dest && (buf != null ==> buf[..] == old(buf[..]))
    ensures buf != null && src.Str? ==>
              var e := dest + |TextAt(old(buf[..]), dest)|;
              && end == e + |src.text| < buf.Length
              && buf[..] == Overlay(old(buf[..]), e, src.text + [NUL])
  {
    if buf == null || src.Null? {
      return dest;
    }
    ghost var before := buf[..];
    end := dest;
    while buf[end] != NUL
      invariant buf[..] == before
      invariant dest <= end && end + |TextAt(before, end)| == dest + |TextAt(before, dest)|
      decreases buf.Length - end
    {
      end := end + 1;
    }
    var text := src.text + [NUL];
    assert forall i | 0 <= i < |src.text| :: text[i] == src.text[i] != NUL;
    var k := 0;
    assert buf[..] == Overlay(before, end, text[..0]);
    while text[k] != NUL
      invariant 0 <= k <= |src.text|
      invariant buf[..] == Overlay(before, end, text[..k])
      decreases |text| - k
    {
      OverlayStep(before, end, src.text, k);
      assert text[..k] == src.text[..k];
      buf[end + k] := text[k];
      k := k + 1;
    }
    OverlayStep(before, end, src.text, k);
    assert text[..k] == src.text[..k] && text[..k + 1] == text;
    buf[end + k] := text[k];
    end := end + k;
  }

  /** What `snprintf` keeps of `text` when it may write `count` bytes. */
  function Clipped(text: string, count: nat): string
    requires count > 0
  {
    if |text| < count then text else text[..count - 1]
  }

  /** `snprintf(buf + pos, count, "%s", text)`. */
  method Snprintf(buf: array<char>, pos: nat, count: nat, text: string)
    requires count > 0 && pos + |Clipped(text, count)| < buf.Length
    modifies buf
    ensures buf[..] == Overlay(old(buf[..]), pos, Clipped(text, count) + [NUL])
  {
    ghost var before := buf[..];
    var kept := Clipped(text, count);
    assert buf[..] == Overlay(before, pos, kept[..0]);
    for k := 0 to |kept|
      invariant buf[..] == Overlay(before, pos, kept[..k])
    {
      OverlayStep(before, pos, kept, k);
      assert (kept + [NUL])[..k + 1] == kept[..k + 1];
      buf[pos + k] := kept[k];
    }
    OverlayStep(before, pos, kept, |kept|);
    assert kept[..|kept|] == kept && (kept + [NUL])[..|kept| + 1] == kept + [NUL];
    buf[pos + |kept|] := NUL;
  }

  /** `text` at the start of the buffer, then NUL. */
  predicate BufHolds(buf: string, text: string) {
    |text| < |buf| && buf[..|text|] == text && buf[|text|] == NUL
  }

  /** Printing at the end of the text extends it, and `strlen` from there is what was printed. */
  lemma BufGrows(buf: string, text: string, added: string)
    requires BufHolds(buf, text) && |text| + |added| < |buf| && IsCString(added)
    ensures var after := Overlay(buf, |text|, added + [NUL]);
            BufHolds(after, text + added) && TextAt(after, |text|) == added
  {
    var rest := buf[|text| + |added| + 1..];
    OverlayAfter(buf, text, added, rest);
    TextAtTerminated(text, added, rest);
    HoldsText(text + added, rest);
  }

  lemma OverlayAfter(buf: string, text: string, added: string, rest: string)
    requires |text| + |added| < |buf| && buf[..|text|] == text && buf[|text| + |added| + 1..] == rest
    ensures Overlay(buf, |text|, added + [NUL]) == text + added + [NUL] + rest
  {
    AppendAssociative(text, added, [NUL]);
  }

  lemma HoldsText(text: string, rest: string)
    ensures BufHolds(text + [NUL] + rest, text)
  {
  }

  lemma ClippedFits(text: string, count: nat)
    requires count > 0
    ensures |Clipped(text, count)| < count && (IsCString(text) ==> IsCString(Clipped(text, count)))
  {
  }

  /** What is kept: the whole text if it and its NUL fit, its first `count - 1` bytes otherwise. */
  lemma ClippedMeaning(text: string, count: nat)
    requires count > 0
    ensures |text| + 1 <= count ==> Clipped(text, count) == text
    ensures |text| + 1 > count ==> |Clipped(text, count)| == count - 1 && Clipped(text, count) == text[..count - 1]
  {
  }

  /** `snprintf` at the end of the text in the buffer. */
  method PrintAt(buf: array<char>, pos: nat, count: nat, added: string, ghost text: string)
    requires count > 0 && pos == |text| && pos + |Clipped(added, count)| < buf.Length
    requires BufHolds(buf[..], text) && IsCString(added)
    modifies buf
    ensures BufHolds(buf[..], text + Clipped(added, count)) && TextAt(buf[..], pos) == Clipped(added, count)
  {
    ClippedFits(added, count);
    BufGrows(buf[..], text, Clipped(added, count));
    Snprintf(buf, pos, count, added);
  }

  lemma BufReads(buf: string, text: string)
    requires BufHolds(buf, text) && IsCString(text)
    ensures TextAt(buf, 0) == text
  {
    TextAtTerminated("", text, buf[|text| + 1..]);
    assert "" + text + [NUL] + buf[|text| + 1..] == buf;
  }

  // ---- Zeroed buffers ----

  /** A zeroed buffer of `n` bytes into which `text` has been written. */
  function Written(text: string, n: nat): string
    requires |text| < n
  {
    text + Zeros(n - |text|)
  }

  /** Appending at the end of the text leaves a zeroed buffer holding the longer text. */
  lemma AppendStep(text: string, added: string, n: nat)
    requires |text| + |added| < n
    ensures |text| + |TextAt(Written(text, n), |text|)| == |text|
    ensures Overlay(Written(text, n), |text|, added + [NUL]) == Written(text + added, n)
  {
  }

  /** `Strcat2` with the cursor at the end of the text of a zeroed buffer. */
  method Append(buf: array<char>, c: nat, src: CharPtr, ghost text: string) returns (end: nat)
    requires IsCString(TextOf(src)) && |text| + |TextOf(src)| < buf.Length
    requires buf[..] == Written(text, buf.Length) && c == |text|
    modifies buf
    ensures buf[..] == Written(text + TextOf(src), buf.Length) && end == |text + TextOf(src)|
  {
    if src.Str? {
      AppendStep(text, src.text, buf.Length);
    } else {
      assert text + "" == text;
    }
    end := Strcat2(buf, c, src);
  }

  lemma WrittenReads(text: string, n: nat)
    requires |text| < n && IsCString(text)
    ensures TextAt(Written(text, n), 0) == text
  {
    TextAtTerminated("", text, Zeros(n - |text| - 1));
    assert "" + text + [NUL] + Zeros(n - |text| - 1) == Written(text, n);
  }

  // ---- Multi-strings ----

  /** The names one after the other, each with its NUL. */
  function Joined(names: seq<string>): string {
    if names == [] then ""
    else Joined(names[..|names| - 1]) + names[|names| - 1] + [NUL]
  }

  /** A multi-string: the joined names and one more NUL. */
  function Packed(names: seq<string>): string {
    Joined(names) + [NUL]
  }

  function TotalLength(names: seq<string>): nat {
    if names == [] then 0
    else TotalLength(names[..|names| - 1]) + |names[|names| - 1]| + 1
  }

  function BeforeEmpty(names: seq<string>): seq<string> {
    if names == [] || names[0] == "" then [] else [names[0]] + BeforeEmpty(names[1..])
  }

  /** The strings a cursor stops at when it starts at `pos` and skips a string and its NUL at a time. */
  function Walk(buf: string, pos: nat): seq<string>
    decreases |buf| - pos
  {
    var name := TextAt(buf, pos);
    if name == "" then [] else [name] + Walk(buf, pos + |name| + 1)
  }

  /** Where that cursor comes to rest. */
  function WalkEnd(buf: string, pos: nat): nat
    decreases |buf| - pos
  {
    var name := TextAt(buf, pos);
    if name == "" then pos else WalkEnd(buf, pos + |name| + 1)
  }

  predicate AllCStrings(names: seq<string>) {
    forall i | 0 <= i < |names| :: IsCString(names[i])
  }

  lemma {:induction false} JoinedLength(names: seq<string>)
    ensures |Joined(names)| == TotalLength(names)
  {
    if names != [] {
      JoinedLength(names[..|names| - 1]);
    }
  }

  lemma {:induction false} JoinedAppend(a: seq<string>, b: seq<string>)
    ensures Joined(a + b) == Joined(a) + Joined(b)
    decreases |b|
  {
    if b == [] {
      assert a + b == a;
    } else {
      var init := b[..|b| - 1];
      JoinedAppend(a, init);
      assert (a + b)[..|a + b| - 1] == a + init;
      assert (a + b)[|a + b| - 1] == b[|b| - 1];
    }
  }

  lemma JoinedFront(name: string, rest: seq<string>)
    ensures |Joined([name] + rest)| == |name| + 1 + |Joined(rest)|
  {
    JoinedAppend([name], rest);
    assert [name][..0] == [];
    assert Joined([name]) == Joined([]) + name + [NUL];
  }

  /** The walk from the `k`-th name on sees the remaining names up to the first empty one. */
  lemma {:induction false} WalkFrom(names: seq<string>, k: nat)
    requires AllCStrings(names) && k <= |names|
    ensures var pos := |Joined(names[..k])|;
            && Walk(Packed(names), pos) == BeforeEmpty(names[k..])
            && WalkEnd(Packed(names), pos) == pos + |Joined(BeforeEmpty(names[k..]))|
    decreases |names| - k
  {
    var buf, pos := Packed(names), |Joined(names[..k])|;
    if k == |names| {
      assert names[..k] == names;
      assert buf[pos] == NUL;
    } else {
      NameAt(names, k);
      if names[k] != "" {
        WalkFrom(names, k + 1);
        assert names[k..][0] == names[k] && names[k..][1..] == names[k + 1..];
        JoinedFront(names[k], BeforeEmpty(names[k + 1..]));
      }
    }
  }

  /** Where the `k`-th name sits in the multi-string. */
  lemma NameAt(names: seq<string>, k: nat)
    requires AllCStrings(names) && k < |names|
    ensures var pos := |Joined(names[..k])|;
            && pos < |Packed(names)|
            && TextAt(Packed(names), pos) == names[k]
            && (Packed(names)[pos] == NUL <==> names[k] == "")
            && |Joined(names[..k + 1])| == pos + |names[k]| + 1
  {
    var pre, post := Joined(names[..k]), Joined(names[k + 1..]) + [NUL];
    assert names == names[..k + 1] + names[k + 1..];
    JoinedAppend(names[..k + 1], names[k + 1..]);
    assert names[..k + 1][..k] == names[..k];
    assert Packed(names) == pre + names[k] + [NUL] + post;
    TextAtTerminated(pre, names[k], post);
  }

  /** Two names make a multi-string: each with its NUL, and one more. */
  lemma PackedTwo(a: string, b: string)
    ensures Packed([a, b]) == a + "\0" + b + "\0\0" && Packed([]) == "\0"
  {
    assert [a, b][..1] == [a] && [a][..0] == [];
    assert Joined([a]) == Joined([]) + a + [NUL] == a + "\0";
    assert Joined([a, b]) == Joined([a]) + b + [NUL];
  }

  /** Packing and walking give back the names before the first empty one, all of them if none is empty. */
  lemma PackedRoundTrip(names: seq<string>)
    requires AllCStrings(names)
    ensures Walk(Packed(names), 0) == BeforeEmpty(names)
    ensures var end := WalkEnd(Packed(names), 0);
            && end < |Packed(names)| && Packed(names)[end] == NUL
            && ("" !in names ==> BeforeEmpty(names) == names && end == |Packed(names)| - 1)
  {
    assert names[..0] == [] && names[0..] == names;
    WalkFrom(names, 0);
    BeforeEmptyIsPrefix(names);
    var k := |BeforeEmpty(names)|;
    if k < |names| {
      NameAt(names, k);
      assert names[k] in names;
    } else {
      assert names[..k] == names;
    }
  }

  lemma {:induction false} BeforeEmptyIsPrefix(names: seq<string>)
    ensures AllCStrings(names) ==> AllCStrings(BeforeEmpty(names))
    ensures var k := |BeforeEmpty(names)|;
            && k <= |names| && BeforeEmpty(names) == names[..k]
            && "" !in names[..k] && (k < |names| ==> names[k] == "")
  {
    if names != [] && names[0] != "" {
      BeforeEmptyIsPrefix(names[1..]);
      var k := |BeforeEmpty(names)|;
      assert names[..k] == [names[0]] + names[1..][..k - 1];
    }
  }

  lemma JoinedPrefixFits(names: seq<string>, i: nat)
    requires i <= |names|
    ensures |Joined(names[..i])| <= TotalLength(names)
  {
    JoinedAppend(names[..i], names[i..]);
    assert names == names[..i] + names[i..];
    JoinedLength(names);
  }

  /** The zeroed buffer once the first `i` names have been copied into it. */
  function Packing(names: seq<string>, i: nat): string
    requires i <= |names|
  {
    JoinedPrefixFits(names, i);
    Joined(names[..i]) + Zeros(1 + TotalLength(names) - |Joined(names[..i])|)
  }

  /** One more name overwrites the zeros after the names already packed. */
  lemma PackStep(names: seq<string>, i: nat)
    requires AllCStrings(names) && i < |names|
    ensures var buf, c := Packing(names, i), |Joined(names[..i])|;
            && |Joined(names[..i + 1])| == c + |names[i]| + 1 < |buf|
            && c + |TextAt(buf, c)| == c
            && Overlay(buf, c, names[i] + [NUL]) == Packing(names, i + 1)
  {
    assert names[..i + 1][..i] == names[..i];
    JoinedPrefixFits(names, i);
    JoinedPrefixFits(names, i + 1);
  }

  lemma PackEnds(names: seq<string>)
    ensures |Packing(names, 0)| == 1 + TotalLength(names) && Packing(names, 0) == Zeros(1 + TotalLength(names))
    ensures Packing(names, |names|) == Packed(names)
  {
    assert names[..|names|] == names && names[..0] == [];
    JoinedLength(names);
  }

  /** The measuring loop of `pg_get_databases`. */
  method MeasureNames(names: seq<string>) returns (bufferlen: nat)
    ensures bufferlen == 1 + TotalLength(names)
  {
    bufferlen := 1;
    for i := 0 to |names|
      invariant bufferlen == 1 + TotalLength(names[..i])
    {
      assert names[..i + 1][..i] == names[..i];
      bufferlen := bufferlen + |names[i]| + 1;
    }
    assert names[..|names|] == names;
  }

  /** Allocate the measured length, zero it and copy the names in one after the other. */
  method PackNames(names: seq<string>) returns (databases: array<char>)
    requires AllCStrings(names)
    ensures fresh(databases) && databases[..] == Packed(names)
    ensures databases.Length == 1 + TotalLength(names)
  {
    var bufferlen := MeasureNames(names);
    databases := new char[bufferlen](_ => NUL);
    PackEnds(names);
    assert databases[..] == Packing(names, 0);
    var c := 0;
    for i := 0 to |names|
      invariant c == |Joined(names[..i])|
      invariant databases[..] == Packing(names, i)
    {
      c := PackName(databases, c, names, i);
      c := c + 1;
    }
  }

  /** One copy of the packing loop. */
  method PackName(databases: array<char>, c: nat, names: seq<string>, i: nat) returns (end: nat)
    requires AllCStrings(names) && i < |names|
    requires c == |Joined(names[..i])| && databases[..] == Packing(names, i)
    modifies databases
    ensures end + 1 == |Joined(names[..i + 1])| && databases[..] == Packing(names, i + 1)
  {
    PackStep(names, i);
    end := Strcat2(databases, c, Str(names[i]));
  }
}
