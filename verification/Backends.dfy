/**
The items `pg.backends.count` and `pg.queries.longest` of src/pg_backends.c: a
version probe, the filter clause and one query, and what the server makes of
the query's text.
*/
module Backends {
  import opened ActivityFilters
  import opened ActivityQueries
  import opened Agent
  import opened Buffers
  import opened Clauses
  import opened CStrings
  import opened Decimals
  import opened Discovery
  import opened Libpq
  import opened Numerals
  import opened Params
  import opened Queries
  import opened Sequences

  const MAX_QUERY_LEN := 4096
  const VERSION_SQL := "SELECT setting FROM pg_settings WHERE name='server_version_num'"
  const COUNT_HEAD := "SELECT COUNT(datid) FROM pg_stat_activity WHERE "
  const COUNT_SELF := " != pg_backend_pid()"

  /** `atol`: like `strtoull`, with the sign kept. */
  function Atol(s: string): int {
    var i := SkipSpaces(s, 0);
    var j := SkipSign(s, i);
    var n := Value(s[j..DigitRun(s, j)]);
    if MinusAt(s, i) then -(n as int) else n
  }

  /** `pg_version`: 0 when it cannot be read. */
  function VersionOf(res: QueryResult): int {
    var value := Scalar(res);
    if value.Null? then 0 else Atol(value.text)
  }

  /** `pg_version` over one connection. */
  function ProbedVersion(server: Server, id: nat, conninfo: string): int {
    VersionOf(QueryReply(server, id, conninfo, VERSION_SQL, []))
  }

  /** A server that answers with the digits of a number has that version. */
  lemma VersionMeaning(res: QueryResult, n: nat)
    requires WellFormed(res) && |Digits(n)| < 2048
    requires res.Tuples? && res.rows != [] && |res.rows[0]| > 0 && res.rows[0][0] == Digits(n)
    ensures VersionOf(res) == n
  {
    ScalarMeaning(res);
    DigitsMeaning(n);
    AppendNothing(Digits(n));
    StartsWithDigits(Digits(n), "");
  }

  /** Without an answer there is no version. */
  lemma NoVersion(res: QueryResult)
    requires WellFormed(res) && (res.Failed? || res.rows == [])
    ensures VersionOf(res) == 0
  {
    ScalarMeaning(res);
  }

  method PgVersion(lib: Client, heap: Heap, request: AgentRequest) returns (version: int)
    requires ConnParamsOk(request)
    modifies lib, heap
    ensures lib.nextId == old(lib.nextId) + 1 && heap.live == old(heap.live)
    ensures lib.log == old(lib.log) + QueryLog(lib.server, old(lib.nextId), ConnInfo(request), VERSION_SQL, [])
    ensures version == ProbedVersion(lib.server, old(lib.nextId), ConnInfo(request))
  {
    var value := PgScalar(lib, heap, request, VERSION_SQL, null, []);
    version := if value.Null? then 0 else Atol(value.text);
  }

  function PidColumn(version: int): string {
    if version < 90200 then "procpid" else "pid"
  }

  /** The counting query around a clause that continues its WHERE. */
  function CountSql(version: int, clause: string): string {
    COUNT_HEAD + PidColumn(version) + COUNT_SELF + clause + ";"
  }

  const LONGEST_HEAD :=
    "SELECT   COALESCE(     (SELECT       EXTRACT(EPOCH FROM NOW()) - EXTRACT(EPOCH FROM query_start) AS duration"
    + "     FROM pg_stat_activity     WHERE       "
  const ACTIVE := "state = 'active'"
  const ACTIVE_BEFORE_92 := "current_query NOT IN ('', '<IDLE>', '<insufficient privilege>')"
  const LONGEST_TAIL := "    ORDER BY duration DESC     LIMIT 1), 0);"

  /** The query for the longest-running query, around a clause that continues its WHERE. */
  function LongestHead(version: int): string {
    LONGEST_HEAD + (if version < 90200 then ACTIVE_BEFORE_92 else ACTIVE)
    + "       AND " + PidColumn(version) + COUNT_SELF + " "
  }

  function LongestSql(version: int, clause: string): string {
    LongestHead(version) + clause + LONGEST_TAIL
  }

  /** The server of a version reads the text printed for it. */
  lemma CountSqlReads(version: int, clause: string)
    ensures ReadCount(CountSql(version, clause), version) == Just(clause)
  {
    var pid := PidColumn(version);
    AppendAssociative(COUNT_HEAD + pid + COUNT_SELF, clause, ";");
    AppendAssociative(COUNT_HEAD + pid, COUNT_SELF, clause + ";");
    AppendAssociative(COUNT_HEAD, pid, COUNT_SELF + (clause + ";"));
    CountReads(version, pid, clause);
  }

  lemma LongestSqlReads(version: int, clause: string)
    ensures ReadLongest(LongestSql(version, clause), version) == Just(clause)
  {
    var pid, active := PidColumn(version), if version < 90200 then ACTIVE_BEFORE_92 else ACTIVE;
    var head := LONGEST_HEAD + active + "       AND " + pid;
    var rest := (COUNT_SELF + " ") + (clause + LONGEST_TAIL);
    AppendAssociative(head, COUNT_SELF, " ");
    AppendAssociative(head + (COUNT_SELF + " "), clause, LONGEST_TAIL);
    AppendAssociative(head, COUNT_SELF + " ", clause + LONGEST_TAIL);
    AppendAssociative(LONGEST_HEAD + active + "       AND ", pid, rest);
    AppendAssociative(LONGEST_HEAD + active, "       AND ", pid + rest);
    AppendAssociative(LONGEST_HEAD, active, "       AND " + (pid + rest));
    LongestReads(version, active, pid, clause);
  }

  // ---- What they are for ----

  /** The other backends that satisfy every filter. */
  predicate IsWanted(b: Backend, self: nat, request: AgentRequest, inet: Inet) {
    b.pid != self && Matches(request, 0, b.row, inet)
  }

  function Wanted(rows: seq<Backend>, self: nat, request: AgentRequest, inet: Inet): seq<Backend> {
    if rows == [] then []
    else
      var b := rows[|rows| - 1];
      Wanted(rows[..|rows| - 1], self, request, inet) + (if IsWanted(b, self, request, inet) then [b] else [])
  }

  function ClauseText(request: AgentRequest, inet: Inet): string {
    Render(Compiled(request, 0, And, 0, inet))
  }

  lemma {:induction false} SelectedAreWanted(
    rows: seq<Backend>, self: nat, request: AgentRequest, version: int, inet: Inet)
    requires Accepted(request) && Served(request, 0, version, inet)
    ensures Selected(rows, self, ClauseText(request, inet), Bound(request, 0), version, inet) ==
            Wanted(rows, self, request, inet)
  {
    if rows != [] {
      SelectedAreWanted(rows[..|rows| - 1], self, request, version, inet);
      ClauseMeaning(request, And, rows[|rows| - 1].row, version, inet);
    }
  }

  /** The positions of the other backends that are connected to a database and satisfy every filter. */
  ghost function Counted(rows: seq<Backend>, n: nat, self: nat, request: AgentRequest, inet: Inet): set<int>
    requires n <= |rows|
  {
    set i | 0 <= i < n && rows[i].pid != self && rows[i].row.datid.Just? && Matches(request, 0, rows[i].row, inet)
  }

  lemma {:induction false} WantedCount(rows: seq<Backend>, n: nat, self: nat, request: AgentRequest, inet: Inet)
    requires n <= |rows|
    ensures CountDatId(Wanted(rows[..n], self, request, inet)) == |Counted(rows, n, self, request, inet)|
  {
    if n == 0 {
      assert Counted(rows, 0, self, request, inet) == {};
    } else {
      var b, wanted := rows[n - 1], Wanted(rows[..n - 1], self, request, inet);
      WantedCount(rows, n - 1, self, request, inet);
      assert rows[..n][..n - 1] == rows[..n - 1];
      CountSnoc(wanted, b);
      AppendNothing(wanted);
      CountedGrows(rows, n, self, request, inet);
    }
  }

  lemma CountedGrows(rows: seq<Backend>, n: nat, self: nat, request: AgentRequest, inet: Inet)
    requires 0 < n <= |rows|
    ensures var b := rows[n - 1];
            |Counted(rows, n, self, request, inet)| ==
              |Counted(rows, n - 1, self, request, inet)|
              + if IsWanted(b, self, request, inet) && b.row.datid.Just? then 1 else 0
  {
    var before, after := Counted(rows, n - 1, self, request, inet), Counted(rows, n, self, request, inet);
    if n - 1 in after {
      assert after == before + {n - 1};
    } else {
      assert after == before;
    }
  }

  lemma CountSnoc(rows: seq<Backend>, b: Backend)
    ensures CountDatId(rows + [b]) == CountDatId(rows) + if b.row.datid.Just? then 1 else 0
  {
    assert (rows + [b])[..|rows|] == rows;
  }

  /**
  The text sent to the server counts the other backends that are connected to a
  database and satisfy every filter; it is refused exactly when a filter is an
  oid that is too large or needs a column that the server's version lacks.
  */
  lemma CountMeaning(version: int, rows: seq<Backend>, self: nat, request: AgentRequest, inet: Inet)
    requires Accepted(request)
    ensures CountOf(CountSql(version, ClauseText(request, inet)), version, rows, self, Bound(request, 0), inet) ==
            if Served(request, 0, version, inet) then Just(|Counted(rows, |rows|, self, request, inet)|) else Nothing
  {
    CountSqlReads(version, ClauseText(request, inet));
    ClauseMeaning(request, And, NULL_ROW, version, inet);
    if Served(request, 0, version, inet) {
      SelectedAreWanted(rows, self, request, version, inet);
      WantedCount(rows, |rows|, self, request, inet);
      assert rows[..|rows|] == rows;
    }
  }

  /** All of `rows` that are running a query have a known duration, and it is at most `d`. */
  predicate AtMost(rows: seq<Backend>, d: real) {
    rows == []
    || (&& AtMost(rows[..|rows| - 1], d)
        && (rows[|rows| - 1].active ==> rows[|rows| - 1].duration.Just? && rows[|rows| - 1].duration.value <= d))
  }

  /** One of `rows` is running a query, for this long. */
  predicate RunsFor(rows: seq<Backend>, d: Maybe<real>) {
    exists b | b in rows :: b.active && b.duration == d
  }

  lemma {:induction false} AtMostGrows(rows: seq<Backend>, d: real, e: real)
    requires AtMost(rows, d) && d <= e
    ensures AtMost(rows, e)
  {
    if rows != [] {
      AtMostGrows(rows[..|rows| - 1], d, e);
    }
  }

  lemma {:induction false} TopMeaning(rows: seq<Backend>)
    ensures Top(rows).Nothing? <==> forall b | b in rows :: !b.active
    ensures Top(rows).Just? ==> RunsFor(rows, Top(rows).value)
    ensures Top(rows).Just? && Top(rows).value.Just? ==> AtMost(rows, Top(rows).value.value)
    ensures RunsFor(rows, Nothing) ==> Top(rows) == Just(Nothing)
  {
    if rows != [] {
      var init, b, top := rows[..|rows| - 1], rows[|rows| - 1], Top(rows[..|rows| - 1]);
      TopMeaning(init);
      assert rows == init + [b];
      if top.Nothing? {
        IdleAtMost(init, if b.duration.Just? then b.duration.value else 0.0);
      } else if top.value.Just? && b.duration.Just? && top.value.value <= b.duration.value {
        AtMostGrows(init, top.value.value, b.duration.value);
      }
    }
  }

  lemma {:induction false} IdleAtMost(rows: seq<Backend>, d: real)
    requires forall b | b in rows :: !b.active
    ensures AtMost(rows, d)
  {
    if rows != [] {
      assert rows[|rows| - 1] in rows;
      IdleAtMost(rows[..|rows| - 1], d);
    }
  }

  lemma {:induction false} WantedMembers(rows: seq<Backend>, self: nat, request: AgentRequest, inet: Inet, b: Backend)
    ensures b in Wanted(rows, self, request, inet) <==> b in rows && b.pid != self && Matches(request, 0, b.row, inet)
  {
    if rows != [] {
      WantedMembers(rows[..|rows| - 1], self, request, inet, b);
      assert rows == rows[..|rows| - 1] + [rows[|rows| - 1]];
    }
  }

  lemma {:induction false} AtMostMeaning(rows: seq<Backend>, d: real)
    requires AtMost(rows, d)
    ensures forall b | b in rows && b.active :: b.duration.Just? && b.duration.value <= d
  {
    if rows != [] {
      AtMostMeaning(rows[..|rows| - 1], d);
      assert rows == rows[..|rows| - 1] + [rows[|rows| - 1]];
    }
  }

  /** The other backends that are running a query and satisfy every filter. */
  ghost function Running(rows: seq<Backend>, self: nat, request: AgentRequest, inet: Inet): set<Backend> {
    set b | b in rows && b.pid != self && b.active && Matches(request, 0, b.row, inet)
  }

  /** `d` is the longest duration of a set of backends, 0 if there is none or one of them is unknown. */
  ghost predicate IsLongest(running: set<Backend>, d: real) {
    if running == {} || (exists b | b in running :: b.duration.Nothing?) then d == 0.0
    else
      && (exists b | b in running :: b.duration == Just(d))
      && (forall b | b in running :: b.duration.value <= d)
  }

  lemma TopIsLongest(rows: seq<Backend>, self: nat, request: AgentRequest, inet: Inet)
    ensures IsLongest(Running(rows, self, request, inet), TopDuration(Wanted(rows, self, request, inet)))
  {
    var wanted, running := Wanted(rows, self, request, inet), Running(rows, self, request, inet);
    TopMeaning(wanted);
    forall b: Backend ensures b in running <==> b in wanted && b.active {
      WantedMembers(rows, self, request, inet, b);
    }
    if Top(wanted).Just? && Top(wanted).value.Just? {
      AtMostMeaning(wanted, Top(wanted).value.value);
    }
  }

  /**
  The text sent to the server gives the longest duration of the other backends
  that are running a query and satisfy every filter: 0 if there is none, and 0
  as well if the duration of one of them is unknown. It is refused like the count.
  */
  lemma LongestMeaning(version: int, rows: seq<Backend>, self: nat, request: AgentRequest, inet: Inet)
    requires Accepted(request)
    ensures var sql := LongestSql(version, ClauseText(request, inet));
            var longest := LongestOf(sql, version, rows, self, Bound(request, 0), inet);
            if Served(request, 0, version, inet)
            then longest.Just? && IsLongest(Running(rows, self, request, inet), longest.value)
            else longest == Nothing
  {
    LongestSqlReads(version, ClauseText(request, inet));
    ClauseMeaning(request, And, NULL_ROW, version, inet);
    if Served(request, 0, version, inet) {
      SelectedAreWanted(rows, self, request, version, inet);
      TopIsLongest(rows, self, request, inet);
    }
  }

  /** `is_oid` accepts a number that no oid column can be compared with. */
  lemma LargeOidIsRefused(inet: Inet)
    ensures var request := AgentRequest("pg.backends.count", [Null, Null, Str(Digits(OID_LIMIT))]);
            && Accepted(request) && IsOid(Digits(OID_LIMIT))
            && CountOf(CountSql(90400, ClauseText(request, inet)), 90400, [], 0, Bound(request, 0), inet) == Nothing
  {
    var request := AgentRequest("pg.backends.count", [Null, Null, Str(Digits(OID_LIMIT))]);
    DigitsMeaning(OID_LIMIT);
    assert Filter(request, 0) == Str(Digits(OID_LIMIT)) && IsBlank(Filter(request, 3));
    CountMeaning(90400, [], 0, request, inet);
  }

  /** A client given by host name, on a server before 9.1. */
  lemma HostNameIsRefused(inet: Inet)
    requires inet("h").Nothing?
    ensures var request := AgentRequest("pg.backends.count", [Null, Null, Null, Null, Str("h")]);
            && Accepted(request)
            && CountOf(CountSql(90000, ClauseText(request, inet)), 90000, [], 0, Bound(request, 0), inet) == Nothing
  {
    var request := AgentRequest("pg.backends.count", [Null, Null, Null, Null, Str("h")]);
    assert Filter(request, 2) == Str("h") && IsBlank(Filter(request, 3));
    NotServed(request, 2, 0, 90000, inet);
    CountMeaning(90000, [], 0, request, inet);
  }

  /** The waiting filter, on a server from 9.6 on. */
  lemma WaitingIsRefused(inet: Inet)
    ensures var request := AgentRequest("pg.backends.count", [Null, Null, Null, Null, Null, Str("true")]);
            && Accepted(request)
            && CountOf(CountSql(90600, ClauseText(request, inet)), 90600, [], 0, Bound(request, 0), inet) == Nothing
  {
    var request := AgentRequest("pg.backends.count", [Null, Null, Null, Null, Null, Str("true")]);
    assert Filter(request, 3) == Str("true");
    NotServed(request, 3, 0, 90600, inet);
    CountMeaning(90600, [], 0, request, inet);
  }

  /** One filter without its column is enough. */
  lemma {:induction false} NotServed(request: AgentRequest, i: nat, k: nat, version: int, inet: Inet)
    requires k <= i < 4 && !IsBlank(Filter(request, i)) && !ColumnServed(i, Filter(request, i).text, version, inet)
    ensures !Served(request, k, version, inet)
    decreases i - k
  {
    if k < i {
      NotServed(request, i, k + 1, version, inet);
    }
  }

  // ---- The items ----

  lemma CountSqlFits(version: int, clause: string)
    requires |clause| <= 136
    ensures |CountSql(version, clause)| < MAX_QUERY_LEN
    ensures Clipped(CountSql(version, clause), MAX_QUERY_LEN) == CountSql(version, clause)
  {
    assert |COUNT_HEAD| <= 60 && |COUNT_SELF| <= 30 && |PidColumn(version)| <= 7;
  }

  /** A zeroed buffer, and the clause built into it. */
  method ClauseFor(heap: Heap, request: AgentRequest, inet: Inet) returns (ok: bool, clause: string, params: PGparams)
    modifies heap
    ensures ok <==> Accepted(request)
    ensures Holds(params, Bound(request, 0)) && Blocks(params) <= heap.live
    ensures heap.live - Blocks(params) == old(heap.live) && (params != null ==> fresh(params))
    ensures heap.live == old(heap.live) <==> Bound(request, 0) == []
    ensures ok ==> clause == ClauseText(request, inet) && |clause| <= 136
  {
    var buffer := new char[MAX_CLAUSE_LEN](_ => NUL);
    ok, params := BuildActivityClause(heap, request, buffer, 1, inet);
    CompiledLength(request, 0, And, 0, inet);
    clause := TextAt(buffer[..], 0);
    assert params != null ==> params in heap.live && params !in old(heap.live);
  }

  /**
  Probe the version, build the clause, run the count. The probe uses one
  connection and the count the next; a refused version, an unsupported filter
  or a failed count gives no result.
  */
  method PgBackendsCount(lib: Client, heap: Heap, request: AgentRequest, inet: Inet)
    returns (ok: bool, result: AgentResult)
    requires ConnParamsOk(request)
    modifies lib, heap
    ensures var id, conninfo := old(lib.nextId), ConnInfo(request);
            var version := ProbedVersion(lib.server, id, conninfo);
            var probed := old(lib.log) + QueryLog(lib.server, id, conninfo, VERSION_SQL, []);
            var sql := CountSql(version, ClauseText(request, inet));
            var args := Bound(request, 0);
            if version == 0 || !Accepted(request) then
              !ok && result == NoResult && lib.log == probed
            else
              && lib.log == probed + QueryLog(lib.server, id + 1, conninfo, sql, args)
              && var value := Scalar(QueryReply(lib.server, id + 1, conninfo, sql, args));
              && ok == value.Str? && result == ResultOf(AsInteger, value)
    // The bound copies are released exactly when there are none or the count is executed.
    ensures var id, conninfo := old(lib.nextId), ConnInfo(request);
            heap.live == old(heap.live) <==>
              || ProbedVersion(lib.server, id, conninfo) == 0
              || Bound(request, 0) == []
              || (Accepted(request) && lib.server.accepts(id + 1, conninfo))
  {
    var version := PgVersion(lib, heap, request);
    if version == 0 {
      return false, NoResult;
    }
    var built, clause, params := ClauseFor(heap, request, inet);
    if !built {
      return false, NoResult;
    }
    CountSqlFits(version, clause);
    var query := Clipped(CountSql(version, clause), MAX_QUERY_LEN);
    ok, result := PgGetResult(lib, heap, request, AsInteger, query, params, Bound(request, 0));
  }

  lemma LongestSqlFits(version: int, clause: string)
    requires |clause| <= 136
    ensures |LongestSql(version, clause)| < MAX_QUERY_LEN
    ensures Clipped(LongestSql(version, clause), MAX_QUERY_LEN) == LongestSql(version, clause)
  {
    assert |LONGEST_HEAD| <= 200 && |ACTIVE| <= 80 && |ACTIVE_BEFORE_92| <= 80 && |LONGEST_TAIL| <= 60;
    assert |PidColumn(version)| <= 7 && |COUNT_SELF| <= 30;
  }

  /** What asking the server does: the events, whether there is a result, and the result. */
  datatype Outcome = Outcome(log: seq<Event>, ok: bool, result: AgentResult)

  /** Probe the version, then run the query with the clause and its values, over the next connection. */
  function LongestOutcome(server: Server, id: nat, conninfo: string, clause: string, args: seq<string>): Outcome {
    var version := ProbedVersion(server, id, conninfo);
    var probe := QueryLog(server, id, conninfo, VERSION_SQL, []);
    if version == 0 then Outcome(probe, false, NoResult)
    else
      var sql := LongestSql(version, clause);
      var value := Scalar(QueryReply(server, id + 1, conninfo, sql, args));
      Outcome(probe + QueryLog(server, id + 1, conninfo, sql, args), value.Str?, ResultOf(AsDouble, value))
  }

  /**
  Build the clause, probe the version, run the query. The values are bound
  before the probe, so a failed probe leaves them allocated.
  */
  method PgQueriesLongest(lib: Client, heap: Heap, request: AgentRequest, inet: Inet)
    returns (ok: bool, result: AgentResult)
    requires ConnParamsOk(request)
    modifies lib, heap
    ensures !Accepted(request) ==> !ok && result == NoResult && lib.log == old(lib.log)
    ensures Accepted(request) ==>
              var clause, args := ClauseText(request, inet), Bound(request, 0);
              var outcome := LongestOutcome(lib.server, old(lib.nextId), ConnInfo(request), clause, args);
              lib.log == old(lib.log) + outcome.log && ok == outcome.ok && result == outcome.result
    // The bound copies are released exactly when there are none or the query is executed.
    ensures heap.live == old(heap.live) <==>
              || Bound(request, 0) == []
              || (&& Accepted(request)
                  && ProbedVersion(lib.server, old(lib.nextId), ConnInfo(request)) != 0
                  && lib.server.accepts(old(lib.nextId) + 1, ConnInfo(request)))
  {
    var built, clause, params := ClauseFor(heap, request, inet);
    ok, result := false, NoResult;
    if built {
      ok, result := RunLongest(lib, heap, request, clause, params, Bound(request, 0), old(heap.live));
    }
  }

  /** What was allocated is given back, or is not. */
  lemma ReleasedIff(before: set<object>, bound: set<object>, blocks: set<object>, released: bool, after: set<object>)
    requires bound - blocks == before && after == if released then bound - blocks else bound
    ensures after == before <==> bound == before || released
  {
  }

  /** The part after the clause; `before` is what was allocated before the values were bound. */
  method RunLongest(lib: Client, heap: Heap, request: AgentRequest, clause: string,
                    params: PGparams, ghost args: seq<string>, ghost before: set<object>)
    returns (ok: bool, result: AgentResult)
    requires ConnParamsOk(request) && |clause| <= 136
    requires Holds(params, args) && Blocks(params) <= heap.live
    requires heap.live - Blocks(params) == before && (heap.live == before <==> args == [])
    modifies lib, heap, params
    ensures var outcome := LongestOutcome(lib.server, old(lib.nextId), ConnInfo(request), clause, args);
            lib.log == old(lib.log) + outcome.log && ok == outcome.ok && result == outcome.result
    ensures heap.live == before <==>
              || args == []
              || (&& ProbedVersion(lib.server, old(lib.nextId), ConnInfo(request)) != 0
                  && lib.server.accepts(old(lib.nextId) + 1, ConnInfo(request)))
  {
    ghost var log, probe := lib.log, QueryLog(lib.server, lib.nextId, ConnInfo(request), VERSION_SQL, []);
    ghost var bound, blocks := heap.live, Blocks(params);
    var version := PgVersion(lib, heap, request);
    if version == 0 {
      return false, NoResult;
    }
    var query := PrintLongest(version, clause);
    ghost var released := lib.server.accepts(lib.nextId, ConnInfo(request));
    ghost var asked := QueryLog(lib.server, lib.nextId, ConnInfo(request), query, args);
    ok, result := PgGetResult(lib, heap, request, AsDouble, query, params, args);
    AppendAssociative(log, probe, asked);
    ReleasedIff(before, bound, blocks, released, heap.live);
  }

  method PrintLongest(version: int, clause: string) returns (query: string)
    requires |clause| <= 136
    ensures query == LongestSql(version, clause)
  {
    LongestSqlFits(version, clause);
    query := Clipped(LongestSql(version, clause), MAX_QUERY_LEN);
  }
}
