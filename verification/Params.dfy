/**
The query-parameter vector of src/pg_params.c: a NULL-terminated array of
strings that grows by reallocation, together with the allocator's blocks, so
that every block is released exactly once.
*/
module Params {
  import opened CStrings

  /** One string allocated by `strdup`. */
  class CharBlock {
    const text: string

    constructor (text: string)
      ensures this.text == text
    {
      this.text := text;
    }
  }

  /** The allocator: the blocks handed out and not yet released. */
  class Heap {
    ghost var live: set<object>

    constructor ()
      ensures live == {}
    {
      live := {};
    }

    ghost method Allocated(block: object)
      requires block !in live
      modifies this
      ensures live == old(live) + {block}
    {
      live := live + {block};
    }

    /** `free`: the block must be live, so releasing it twice is an error. */
    ghost method Free(block: object)
      requires block in live
      modifies this
      ensures live == old(live) - {block}
    {
      live := live - {block};
    }
  }

  type PGparams = array?<CharBlock?>

  /** The vector holds `args` and then NULL; no arguments is the NULL vector. */
  ghost predicate Holds(p: PGparams, args: seq<string>)
    reads p
  {
    if p == null then args == []
    else
      && args != [] && p.Length == |args| + 1 && p[|args|] == null
      && (forall i | 0 <= i < |args| :: p[i] != null && p[i].text == args[i])
      && (forall i, j | 0 <= i < j < |args| :: p[i] != p[j])
  }

  /** The entries from the `k`-th on. */
  ghost function Entries(p: PGparams, k: nat): set<object>
    reads p
  {
    if p == null then {} else set i | k <= i < p.Length && p[i] != null :: p[i]
  }

  /** The blocks `param_free` has to release. */
  ghost function Blocks(p: PGparams): set<object>
    reads p
  {
    if p == null then {} else {p} + Entries(p, 0)
  }

  /** `args` with the NULL and empty ones left out. */
  function NonEmpty(args: seq<CharPtr>): seq<string> {
    if args == [] then []
    else NonEmpty(args[..|args| - 1]) + (if IsBlank(args[|args| - 1]) then [] else [args[|args| - 1].text])
  }

  function Appended(args: seq<string>, s: CharPtr): seq<string> {
    if IsBlank(s) then args else args + [s.text]
  }

  method ParamLen(params: PGparams, ghost args: seq<string>) returns (len: nat)
    requires Holds(params, args)
    ensures len == |args|
  {
    if params == null {
      return 0;
    }
    len := 0;
    while params[len] != null
      invariant 0 <= len <= |args|
      decreases |args| - len
    {
      len := len + 1;
    }
  }

  /** Extend the vector by a copy of `s`, unless `s` is NULL or empty. */
  method ParamAppend(heap: Heap, params: PGparams, s: CharPtr, ghost args: seq<string>) returns (r: PGparams)
    requires Holds(params, args) && Blocks(params) <= heap.live
    modifies heap
    ensures Holds(r, Appended(args, s)) && Blocks(r) <= heap.live
    ensures heap.live - Blocks(r) == old(heap.live) - old(Blocks(params))
    ensures IsBlank(s) ==> r == params
    ensures !IsBlank(s) ==> fresh(r)
  {
    if IsBlank(s) {
      return params;
    }
    var copy := new CharBlock(s.text);
    heap.Allocated(copy);
    if params == null {
      r := new CharBlock?[2](_ => null);
      heap.Allocated(r);
      r[0] := copy;
      r[1] := null;
      assert r[0] == copy;
      assert Entries(r, 0) == {copy};
      return r;
    }
    var len := ParamLen(params, args);
    r := Realloc(heap, params, len + 2);
    r[len] := copy;
    r[len + 1] := null;
    EntriesExtended(params, r, args, copy);
  }

  lemma EntriesExtended(p: array<CharBlock?>, r: array<CharBlock?>, args: seq<string>, copy: CharBlock)
    requires Holds(p, args) && r.Length == |args| + 2
    requires forall i | 0 <= i < |args| :: r[i] == p[i]
    requires r[|args|] == copy && r[|args| + 1] == null
    ensures Entries(r, 0) == Entries(p, 0) + {copy}
  {
    forall x | x in Entries(p, 0) + {copy} ensures x in Entries(r, 0) {
      if x != copy {
        var i :| 0 <= i < p.Length && p[i] != null && p[i] == x;
        assert i < |args| && r[i] == x;
      }
    }
  }

  /** `realloc` to a larger array: the entries move, the old array is released. */
  method Realloc(heap: Heap, params: array<CharBlock?>, n: nat) returns (r: array<CharBlock?>)
    requires params in heap.live && params.Length <= n
    modifies heap
    ensures fresh(r) && r.Length == n && r[..params.Length] == params[..]
    ensures heap.live == old(heap.live) - {params} + {r}
  {
    r := new CharBlock?[n](_ => null);
    for i := 0 to params.Length
      invariant r[..i] == params[..i]
      invariant heap.live == old(heap.live)
    {
      r[i] := params[i];
    }
    heap.Free(params);
    heap.Allocated(r);
  }

  /** Release every entry and then the vector. */
  method ParamFree(heap: Heap, params: PGparams, ghost args: seq<string>)
    requires Holds(params, args) && Blocks(params) <= heap.live
    modifies heap, params
    ensures heap.live == old(heap.live) - old(Blocks(params))
  {
    if params == null {
      return;
    }
    var p := 0;
    while params[p] != null
      invariant 0 <= p <= |args|
      invariant forall i | p <= i < params.Length :: params[i] == old(params[i])
      invariant heap.live == old(heap.live) - (old(Entries(params, 0)) - old(Entries(params, p)))
      decreases |args| - p
    {
      heap.Free(params[p]);
      params[p] := null;
      p := p + 1;
    }
    heap.Free(params);
  }

  /** The loop of src/pg_query.c: append the arguments one after the other, starting from NULL. */
  method ParamsFrom(heap: Heap, args: seq<CharPtr>) returns (params: PGparams)
    modifies heap
    ensures Holds(params, NonEmpty(args)) && Blocks(params) <= heap.live
    ensures heap.live - Blocks(params) == old(heap.live)
    ensures params != null ==> fresh(params)
  {
    params := null;
    for i := 0 to |args|
      invariant Holds(params, NonEmpty(args[..i])) && Blocks(params) <= heap.live
      invariant heap.live - Blocks(params) == old(heap.live)
      invariant params != null ==> fresh(params)
    {
      assert args[..i + 1][..i] == args[..i];
      params := ParamAppend(heap, params, args[i], NonEmpty(args[..i]));
    }
    assert args[..|args|] == args;
  }

  /** Appending and then freeing leaves the allocator as it was: nothing leaks, nothing is released twice. */
  method AppendAllThenFree(heap: Heap, args: seq<CharPtr>) returns (len: nat)
    modifies heap
    ensures len == |NonEmpty(args)| && heap.live == old(heap.live)
  {
    var params := ParamsFrom(heap, args);
    len := ParamLen(params, NonEmpty(args));
    ParamFree(heap, params, NonEmpty(args));
  }

  /** `NonEmpty` keeps exactly the arguments that are neither NULL nor empty, in order. */
  lemma {:induction false} NonEmptyAppend(a: seq<CharPtr>, b: seq<CharPtr>)
    ensures NonEmpty(a + b) == NonEmpty(a) + NonEmpty(b)
    decreases |b|
  {
    if b == [] {
      assert a + b == a;
    } else {
      NonEmptyAppend(a, b[..|b| - 1]);
      assert (a + b)[..|a + b| - 1] == a + b[..|b| - 1];
    }
  }

  /** The number of arguments kept from the first `k`, which is the placeholder of the next one kept. */
  lemma NonEmptyIndex(args: seq<CharPtr>, k: nat)
    requires k < |args| && !IsBlank(args[k])
    ensures |NonEmpty(args[..k])| < |NonEmpty(args)|
    ensures NonEmpty(args)[|NonEmpty(args[..k])|] == args[k].text
  {
    assert args == args[..k + 1] + args[k + 1..];
    NonEmptyAppend(args[..k + 1], args[k + 1..]);
    assert args[..k + 1][..k] == args[..k];
  }

  /** The positions of the arguments that are neither NULL nor empty, below `k`. */
  ghost function Kept(args: seq<CharPtr>, k: nat): set<int>
    requires k <= |args|
  {
    set i | 0 <= i < k && args[i].Str? && args[i].text != ""
  }

  lemma {:induction false} KeptCount(args: seq<CharPtr>, k: nat)
    requires k <= |args|
    ensures |Kept(args, k)| == |NonEmpty(args[..k])|
  {
    if k == 0 {
      assert Kept(args, 0) == {};
    } else {
      KeptCount(args, k - 1);
      assert args[..k][..k - 1] == args[..k - 1];
      if args[k - 1].Str? && args[k - 1].text != "" {
        assert Kept(args, k) == Kept(args, k - 1) + {k - 1};
      } else {
        assert Kept(args, k) == Kept(args, k - 1);
      }
    }
  }

  /** The vector's entries: one for each argument kept, at the place its predecessors leave. */
  lemma NonEmptyByPosition(args: seq<CharPtr>)
    ensures |NonEmpty(args)| == |Kept(args, |args|)|
    ensures forall k | 0 <= k < |args| && args[k].Str? && args[k].text != "" ::
              |Kept(args, k)| < |NonEmpty(args)| && NonEmpty(args)[|Kept(args, k)|] == args[k].text
  {
    KeptCount(args, |args|);
    assert args[..|args|] == args;
    forall k | 0 <= k < |args| && args[k].Str? && args[k].text != ""
      ensures |Kept(args, k)| < |NonEmpty(args)| && NonEmpty(args)[|Kept(args, k)|] == args[k].text
    {
      KeptCount(args, k);
      NonEmptyIndex(args, k);
    }
  }
}
