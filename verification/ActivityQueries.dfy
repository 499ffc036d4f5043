/**
The server's side of the two queries on pg_stat_activity: which texts a server
of some version accepts, and what it answers. The words are its own, not those
the module prints.
*/
module ActivityQueries {
  import opened Clauses
  import opened CStrings
  import opened Sequences

  // ---- The texts ----

  const SELECT_COUNT := "SELECT COUNT(datid) FROM pg_stat_activity WHERE "
  const SELECT_DURATION :=
    "SELECT   COALESCE(     (SELECT       EXTRACT(EPOCH FROM NOW()) - EXTRACT(EPOCH FROM query_start) AS duration"
    + "     FROM pg_stat_activity     WHERE       "
  const IS_ACTIVE := "state = 'active'"
  const IS_NOT_IDLE := "current_query NOT IN ('', '<IDLE>', '<insufficient privilege>')"
  const AND_WORD := "       AND "
  const NOT_SELF := " != pg_backend_pid()"
  const LONGEST_FIRST := "    ORDER BY duration DESC     LIMIT 1), 0);"

  /** The column of process numbers: `procpid` before 9.2, `pid` from then on. */
  function ReadPid(s: string, version: int): Maybe<string> {
    if Skip(s, "procpid").Just? then (if version < 90200 then Skip(s, "procpid") else Nothing)
    else if version >= 90200 then Skip(s, "pid")
    else Nothing
  }

  /** The test for a running query: by `current_query` before 9.2, by `state` from then on. */
  function ReadActive(s: string, version: int): Maybe<string> {
    if version < 90200 then Skip(s, IS_NOT_IDLE) else Skip(s, IS_ACTIVE)
  }

  /** `literal` after what was read so far. */
  function Next(s: Maybe<string>, literal: string): Maybe<string> {
    if s.Nothing? then Nothing else Skip(s.value, literal)
  }

  function NextPid(s: Maybe<string>, version: int): Maybe<string> {
    if s.Nothing? then Nothing else ReadPid(s.value, version)
  }

  function NextActive(s: Maybe<string>, version: int): Maybe<string> {
    if s.Nothing? then Nothing else ReadActive(s.value, version)
  }

  /** What stands before `literal`, if the text ends with it. */
  function Before(s: Maybe<string>, literal: string): Maybe<string> {
    if s.Just? && |literal| <= |s.value| && s.value[|s.value| - |literal|..] == literal
    then Just(s.value[..|s.value| - |literal|])
    else Nothing
  }

  /** The clause of a counting query. */
  function ReadCount(sql: string, version: int): Maybe<string> {
    Before(Next(NextPid(Skip(sql, SELECT_COUNT), version), NOT_SELF), ";")
  }

  /** The clause of a query for the longest-running query. */
  function ReadLongest(sql: string, version: int): Maybe<string> {
    Before(Next(NextPid(Next(NextActive(Skip(sql, SELECT_DURATION), version), AND_WORD), version), NOT_SELF + " "),
           LONGEST_FIRST)
  }

  lemma BeforeReads(clause: string, literal: string)
    ensures Before(Just(clause + literal), literal) == Just(clause)
  {
    var s := clause + literal;
    assert s[|s| - |literal|..] == literal && s[..|s| - |literal|] == clause;
  }

  lemma PidReads(version: int, post: string)
    ensures ReadPid((if version < 90200 then "procpid" else "pid") + post, version) == Just(post)
  {
    if version < 90200 {
      SkipReads("procpid", post);
    } else {
      SkipReads("pid", post);
      SkipFails("pid" + post, "procpid", 1);
    }
  }

  /** The other column is not known. */
  lemma PidIsRefused(version: int, post: string)
    ensures version >= 90200 ==> ReadPid("procpid" + post, version) == Nothing
    ensures version < 90200 ==> ReadPid("pid" + post, version) == Nothing
  {
    SkipReads("procpid", post);
    SkipFails("pid" + post, "procpid", 1);
  }

  lemma ActiveReads(version: int, post: string)
    ensures ReadActive((if version < 90200 then IS_NOT_IDLE else IS_ACTIVE) + post, version) == Just(post)
  {
    SkipReads(IS_NOT_IDLE, post);
    SkipReads(IS_ACTIVE, post);
  }

  /** The counting query, around any clause. */
  lemma CountReads(version: int, pid: string, clause: string)
    requires pid == if version < 90200 then "procpid" else "pid"
    ensures ReadCount(SELECT_COUNT + (pid + (NOT_SELF + (clause + ";"))), version) == Just(clause)
  {
    SkipReads(SELECT_COUNT, pid + (NOT_SELF + (clause + ";")));
    PidReads(version, NOT_SELF + (clause + ";"));
    SkipReads(NOT_SELF, clause + ";");
    BeforeReads(clause, ";");
  }

  /** The query for the longest-running query, around any clause. */
  lemma LongestReads(version: int, active: string, pid: string, clause: string)
    requires pid == if version < 90200 then "procpid" else "pid"
    requires active == if version < 90200 then IS_NOT_IDLE else IS_ACTIVE
    ensures var rest := pid + ((NOT_SELF + " ") + (clause + LONGEST_FIRST));
            ReadLongest(SELECT_DURATION + (active + (AND_WORD + rest)), version) == Just(clause)
  {
    var s4 := (NOT_SELF + " ") + (clause + LONGEST_FIRST);
    SkipReads(SELECT_DURATION, active + (AND_WORD + (pid + s4)));
    ActiveReads(version, AND_WORD + (pid + s4));
    SkipReads(AND_WORD, pid + s4);
    PidReads(version, s4);
    SkipReads(NOT_SELF + " ", clause + LONGEST_FIRST);
    BeforeReads(clause, LONGEST_FIRST);
  }

  // ---- The answers ----

  /**
  A backend: its process number, its row, whether it is running a query, and for
  how long, if that is known.
  */
  datatype Backend = Backend(pid: nat, row: Row, active: bool, duration: Maybe<real>)

  const NULL_ROW := Row(Nothing, Null, Nothing, Null, Nothing, Null, Nothing)

  /** The other backends on whose row the clause is true. */
  function Selected(
    rows: seq<Backend>, self: nat, clause: string, args: seq<string>, version: int, inet: Inet): seq<Backend>
  {
    if rows == [] then []
    else
      var b := rows[|rows| - 1];
      Selected(rows[..|rows| - 1], self, clause, args, version, inet)
      + (if b.pid != self && EvalText(clause, And, args, b.row, version, inet) == True then [b] else [])
  }

  /** COUNT(datid): rows whose database is NULL do not count. */
  function CountDatId(rows: seq<Backend>): nat {
    if rows == [] then 0
    else CountDatId(rows[..|rows| - 1]) + if rows[|rows| - 1].row.datid.Just? then 1 else 0
  }

  /** The server's answer to a counting query, if it accepts its text. */
  function CountOf(
    sql: string, version: int, rows: seq<Backend>, self: nat, args: seq<string>, inet: Inet): Maybe<nat>
  {
    var clause := ReadCount(sql, version);
    if clause.Nothing? || EvalText(clause.value, And, args, NULL_ROW, version, inet) == Invalid then Nothing
    else Just(CountDatId(Selected(rows, self, clause.value, args, version, inet)))
  }

  /** ORDER BY duration DESC: an unknown duration comes first, then the longest. */
  predicate ComesFirst(a: Maybe<real>, b: Maybe<real>) {
    a.Nothing? || (b.Just? && a.value >= b.value)
  }

  /** The first duration in that order, of those that are running a query; 0 if there is none or it is unknown. */
  function TopDuration(rows: seq<Backend>): real {
    var top := Top(rows);
    if top.Just? && top.value.Just? then top.value.value else 0.0
  }

  function Top(rows: seq<Backend>): Maybe<Maybe<real>> {
    if rows == [] then Nothing
    else
      var top, b := Top(rows[..|rows| - 1]), rows[|rows| - 1];
      if !b.active || (top.Just? && ComesFirst(top.value, b.duration)) then top else Just(b.duration)
  }

  /** The server's answer to the query for the longest-running query, if it accepts its text. */
  function LongestOf(
    sql: string, version: int, rows: seq<Backend>, self: nat, args: seq<string>, inet: Inet): Maybe<real>
  {
    var clause := ReadLongest(sql, version);
    if clause.Nothing? || EvalText(clause.value, And, args, NULL_ROW, version, inet) == Invalid then Nothing
    else Just(TopDuration(Selected(rows, self, clause.value, args, version, inet)))
  }
}
