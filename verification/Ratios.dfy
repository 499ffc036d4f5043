/** The quotient query of `pg_get_percentage` in src/libzbxpgsql.c and what its sums mean. */
module Ratios {
  import opened Agent
  import opened Buffers
  import opened CStrings
  import opened Discovery
  import opened Libpq
  import opened Params
  import opened Queries
  import opened Sequences

  // ---- The query ----

  function PercentageSql(relation: string, col1: string, col2: string): string {
    "SELECT CASE WHEN (" + col2 + ") = 0 THEN 1 ELSE (" + col1 + ")::float / (" + col2 + ") END FROM " + relation
  }

  function FilterSql(colFilter: CharPtr): string {
    " WHERE " + TextOf(colFilter) + " = $1"
  }

  function FilteredSql(relation: string, col1: string, col2: string, colFilter: CharPtr): string {
    PercentageSql(relation, col1, col2) + (if IsBlank(colFilter) then "" else FilterSql(colFilter))
  }

  predicate PartsAreCStrings(relation: string, col1: string, col2: string, colFilter: CharPtr) {
    IsCString(relation) && IsCString(col1) && IsCString(col2) && IsCString(TextOf(colFilter))
  }

  lemma JoinIsCString(a: string, b: string, c: string)
    requires IsCString(a) && IsCString(b) && IsCString(c)
    ensures IsCString(a + b + c)
  {
  }

  lemma SqlIsCString(relation: string, col1: string, col2: string, colFilter: CharPtr)
    requires PartsAreCStrings(relation, col1, col2, colFilter)
    ensures IsCString(PercentageSql(relation, col1, col2)) && IsCString(FilterSql(colFilter))
  {
    var a := "SELECT CASE WHEN (" + col2 + ") = 0 THEN 1 ELSE (";
    var b := a + col1 + ")::float / (";
    JoinIsCString("SELECT CASE WHEN (", col2, ") = 0 THEN 1 ELSE (");
    JoinIsCString(a, col1, ")::float / (");
    JoinIsCString(b, col2, ") END FROM ");
    JoinIsCString(b + col2 + ") END FROM ", relation, "");
    AppendNothing(b + col2 + ") END FROM " + relation);
    JoinIsCString(" WHERE ", TextOf(colFilter), " = $1");
  }

  /** Clipping each of two pieces to the room that is left clips the whole. */
  lemma TwoClips(a: string, b: string, n: nat)
    requires n > 0
    ensures |Clipped(a, n)| < n && Clipped(a, n) + Clipped(b, n - |Clipped(a, n)|) == Clipped(a + b, n)
  {
    if |a| < n && |a + b| >= n {
      assert (a + b)[..n - 1] == a + b[..n - 1 - |a|];
    } else if |a| >= n {
      assert (a + b)[..n - 1] == a[..n - 1];
    }
  }

  /** Print the query into the local buffer, which may cut it short, and run what is there. */
  method PgGetPercentage(lib: Client, heap: Heap, request: AgentRequest, relation: string, col1: string, col2: string,
                         colFilter: CharPtr, filter: CharPtr)
    returns (ok: bool, result: AgentResult)
    requires ConnParamsOk(request) && PartsAreCStrings(relation, col1, col2, colFilter)
    modifies lib, heap
    ensures var sql := Clipped(FilteredSql(relation, col1, col2, colFilter), MAX_STRING_LEN);
            var args, id, conninfo := Appended([], filter), old(lib.nextId), ConnInfo(request);
            && lib.log == old(lib.log) + QueryLog(lib.server, id, conninfo, sql, args)
            && var value := Scalar(QueryReply(lib.server, id, conninfo, sql, args));
            && ok == value.Str? && result == ResultOf(AsDouble, value)
    // The bound copy is released exactly when there is none or the command is executed.
    ensures heap.live == old(heap.live) <==>
              IsBlank(filter) || lib.server.accepts(old(lib.nextId), ConnInfo(request))
  {
    SqlIsCString(relation, col1, col2, colFilter);
    var query := PrintTwice(PercentageSql(relation, col1, col2), !IsBlank(colFilter), FilterSql(colFilter));
    var params := ParamAppend(heap, null, filter, []);
    assert heap.live - Blocks(params) == old(heap.live);
    assert params != null ==> params in heap.live && params !in old(heap.live);
    ok, result := PgGetResult(lib, heap, request, AsDouble, query, params, Appended([], filter));
  }

  /** Print `head` and perhaps `tail` behind it, each cut to the room that is left in the buffer. */
  method PrintTwice(head: string, both: bool, tail: string) returns (text: string)
    requires IsCString(head) && IsCString(tail)
    ensures text == Clipped(head + (if both then tail else ""), MAX_STRING_LEN)
  {
    var buffer := new char[MAX_STRING_LEN](_ => NUL);
    ghost var kept := Clipped(head, MAX_STRING_LEN);
    ClippedFits(head, MAX_STRING_LEN);
    AppendNothing(kept);
    PrintAt(buffer, 0, MAX_STRING_LEN, head, "");
    BufReads(buffer[..], kept);
    if both {
      var qlen := |TextAt(buffer[..], 0)|;
      TwoClips(head, tail, MAX_STRING_LEN);
      ClippedFits(head + tail, MAX_STRING_LEN);
      PrintAt(buffer, qlen, MAX_STRING_LEN - qlen, tail, kept);
      BufReads(buffer[..], kept + Clipped(tail, MAX_STRING_LEN - qlen));
    } else {
      AppendNothing(head);
    }
    text := TextAt(buffer[..], 0);
  }

  // ---- The ratio ----

  /** One row of block counters. */
  datatype Counters = Counters(hit: nat, read: nat)

  /** CASE WHEN (den) = 0 THEN 1 ELSE (num)::float / (den) END, without rounding. */
  function Quotient(num: nat, den: nat): real {
    if den == 0 then 1.0 else num as real / den as real
  }

  /** What the filtered form returns for one row. */
  function RowRatio(c: Counters): real {
    Quotient(c.hit, c.hit + c.read)
  }

  function SumHit(rows: seq<Counters>): nat {
    if rows == [] then 0 else SumHit(rows[..|rows| - 1]) + rows[|rows| - 1].hit
  }

  function SumRead(rows: seq<Counters>): nat {
    if rows == [] then 0 else SumRead(rows[..|rows| - 1]) + rows[|rows| - 1].read
  }

  /** What the unfiltered form returns: the quotient of the sums. */
  function TotalRatio(rows: seq<Counters>): real {
    Quotient(SumHit(rows), SumHit(rows) + SumRead(rows))
  }

  /** lo <= num / den <= hi, multiplied out. */
  predicate Within(lo: real, num: nat, den: nat, hi: real) {
    lo * den as real <= num as real <= hi * den as real
  }

  lemma MultiplyOut(a: real, b: real, d: real)
    requires a <= b && d >= 0.0
    ensures a * d <= b * d
  {
  }

  lemma MultiplyLess(a: real, b: real, d: real)
    requires a < b && d > 0.0
    ensures a * d < b * d
  {
  }

  lemma QuotientWithin(num: nat, den: nat, lo: real, hi: real)
    requires num <= den && lo <= Quotient(num, den) <= hi
    ensures Within(lo, num, den, hi)
  {
    if den > 0 {
      var q := num as real / den as real;
      assert q * den as real == num as real;
      MultiplyOut(lo, q, den as real);
      MultiplyOut(q, hi, den as real);
    }
  }

  lemma WithinQuotient(num: nat, den: nat, lo: real, hi: real)
    requires den > 0 && Within(lo, num, den, hi)
    ensures lo <= Quotient(num, den) <= hi
  {
    var d := den as real;
    var q := num as real / d;
    assert q * d == num as real;
    if q < lo { MultiplyLess(q, lo, d); }
    if hi < q { MultiplyLess(hi, q, d); }
  }

  lemma Distribute(x: real, a: nat, b: nat)
    ensures x * (a + b) as real == x * a as real + x * b as real
  {
    var s, t := a as real, b as real;
    assert (a + b) as real == s + t;
    assert x * (s + t) == x * s + x * t;
  }

  lemma WithinSum(lo: real, n1: nat, d1: nat, n2: nat, d2: nat, hi: real)
    requires Within(lo, n1, d1, hi) && Within(lo, n2, d2, hi)
    ensures Within(lo, n1 + n2, d1 + d2, hi)
  {
    Distribute(lo, d1, d2);
    Distribute(hi, d1, d2);
  }

  lemma {:induction false} SumsWithin(rows: seq<Counters>, lo: real, hi: real)
    requires forall i | 0 <= i < |rows| :: lo <= RowRatio(rows[i]) <= hi
    ensures Within(lo, SumHit(rows), SumHit(rows) + SumRead(rows), hi)
  {
    if rows != [] {
      var init, last := rows[..|rows| - 1], rows[|rows| - 1];
      var n, d := SumHit(init), SumHit(init) + SumRead(init);
      SumsWithin(init, lo, hi);
      QuotientWithin(last.hit, last.hit + last.read, lo, hi);
      WithinSum(lo, n, d, last.hit, last.hit + last.read, hi);
      assert SumHit(rows) == n + last.hit && SumHit(rows) + SumRead(rows) == d + (last.hit + last.read);
    }
  }

  lemma ZeroSums(rows: seq<Counters>)
    requires rows != [] && SumHit(rows) + SumRead(rows) == 0
    ensures RowRatio(rows[|rows| - 1]) == 1.0
  {
  }

  /** The overall hit ratio lies between the smallest and the largest ratio of the rows. */
  lemma TotalIsBetweenRows(rows: seq<Counters>, lo: real, hi: real)
    requires rows != [] && forall i | 0 <= i < |rows| :: lo <= RowRatio(rows[i]) <= hi
    ensures lo <= TotalRatio(rows) <= hi
  {
    var n, d := SumHit(rows), SumHit(rows) + SumRead(rows);
    SumsWithin(rows, lo, hi);
    if d == 0 {
      ZeroSums(rows);
    } else {
      WithinQuotient(n, d, lo, hi);
    }
  }

  lemma RowRatioIsRatio(c: Counters)
    ensures 0.0 <= RowRatio(c) <= 1.0
  {
    if c.hit + c.read > 0 {
      WithinQuotient(c.hit, c.hit + c.read, 0.0, 1.0);
    }
  }

  /** The overall hit ratio is a ratio. */
  lemma TotalIsRatio(rows: seq<Counters>)
    requires rows != []
    ensures 0.0 <= TotalRatio(rows) <= 1.0
  {
    forall i | 0 <= i < |rows| ensures 0.0 <= RowRatio(rows[i]) <= 1.0 {
      RowRatioIsRatio(rows[i]);
    }
    TotalIsBetweenRows(rows, 0.0, 1.0);
  }
}
