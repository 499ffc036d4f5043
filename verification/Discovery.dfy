/**
Low-level discovery of src/pg_discovery.c: query one database or every
connectable one and turn each row into a JSON object of `{#COLUMN}` macros.
*/
module Discovery {
  import opened Agent
  import opened CStrings
  import opened Buffers
  import opened ConnStrings
  import opened Params
  import opened Libpq
  import opened Sequences

  const DATABASES_SQL :=
    "SELECT datname FROM pg_database WHERE datallowconn = 't' "
    + "AND pg_catalog.has_database_privilege(current_user, oid, 'CONNECT');"

  // MAX_STRING_LEN of the Zabbix headers.
  const MAX_STRING_LEN := 2048

  /** One `"key":"value"` pair of a discovered object. */
  datatype Field = Field(key: string, value: string)

  type JsonObject = seq<Field>

  // ---- Keys ----

  /** `toupper` in the C locale. */
  function Upper(c: char): char {
    if 'a' <= c <= 'z' then (c as int - 32) as char else c
  }

  function UpperAll(s: string): (r: string)
    ensures |r| == |s|
  {
    if s == "" then "" else UpperAll(s[..|s| - 1]) + [Upper(s[|s| - 1])]
  }

  /** `{#NAME}`, cut to the local buffer, in upper case. */
  function MacroOf(column: string): string {
    UpperAll(Clipped("{#" + column + "}", MAX_STRING_LEN))
  }

  /** Upper case keeps the length and changes nothing but the case of letters. */
  lemma {:induction false} UpperAllAt(s: string, i: nat)
    requires i < |s|
    ensures UpperAll(s)[i] == Upper(s[i])
  {
    if i < |s| - 1 {
      UpperAllAt(s[..|s| - 1], i);
    }
  }

  lemma {:induction false} UpperAllAppend(a: string, b: string)
    ensures UpperAll(a + b) == UpperAll(a) + UpperAll(b)
    decreases |b|
  {
    if b == "" {
      assert a + b == a;
    } else {
      UpperAllAppend(a, b[..|b| - 1]);
      assert (a + b)[..|a + b| - 1] == a + b[..|b| - 1];
    }
  }

  lemma UpperOfBraces()
    ensures UpperAll("{#") == "{#" && UpperAll("}") == "}"
  {
    assert "{#"[..1] == "{" && "{"[..0] == "" && "}"[..0] == "";
    assert UpperAll("{") == "{";
  }

  /** A column name short enough for the buffer is kept whole between `{#` and `}`. */
  lemma MacroKeepsName(column: string)
    requires |column| + 3 < MAX_STRING_LEN
    ensures MacroOf(column) == "{#" + UpperAll(column) + "}"
  {
    UpperAllAppend("{#" + column, "}");
    UpperAllAppend("{#", column);
    UpperOfBraces();
  }

  /** The key, letter by letter: `a` to `z` become `A` to `Z`, every other byte stays. */
  lemma MacroLetters(column: string, i: nat)
    requires |column| + 3 < MAX_STRING_LEN && i < |column|
    ensures var key, c := MacroOf(column), column[i];
            && |key| == |column| + 3 && key[0] == '{' && key[1] == '#' && key[|column| + 2] == '}'
            && ('a' <= c <= 'z' ==> 'A' <= key[2 + i] <= 'Z' && key[2 + i] as int - 'A' as int == c as int - 'a' as int)
            && (!('a' <= c <= 'z') ==> key[2 + i] == c)
  {
    MacroKeepsName(column);
    UpperAllAt(column, i);
    assert MacroOf(column)[2 + i] == UpperAll(column)[i];
  }

  lemma MacroTextOk(column: string)
    requires IsCString(column)
    ensures IsCString("{#" + column + "}")
    ensures var kept := Clipped("{#" + column + "}", MAX_STRING_LEN);
            |kept| < MAX_STRING_LEN && IsCString(kept)
  {
    ClippedFits("{#" + column + "}", MAX_STRING_LEN);
  }

  lemma UpperIsCString(s: string)
    requires IsCString(s)
    ensures IsCString(UpperAll(s))
  {
    forall i | 0 <= i < |s| ensures NUL < UpperAll(s)[i] && UpperAll(s)[i] as int < 256 {
      UpperAllAt(s, i);
    }
  }

  lemma UpperAllStep(s: string, c: nat)
    requires c < |s|
    ensures UpperAll(s[..c + 1]) == UpperAll(s[..c]) + [Upper(s[c])]
  {
    assert s[..c + 1][..c] == s[..c];
  }

  /** Upper-case the text in place up to its NUL. */
  method UpperInPlace(buffer: array<char>, ghost kept: string)
    requires BufHolds(buffer[..], kept) && IsCString(kept)
    modifies buffer
    ensures BufHolds(buffer[..], UpperAll(kept))
    ensures buffer[|kept|..] == old(buffer[|kept|..])
  {
    var c := 0;
    assert forall i | 0 <= i < |kept| :: buffer[i] == buffer[..][..|kept|][i];
    while buffer[c] != NUL
      invariant 0 <= c <= |kept| < buffer.Length
      invariant buffer[..c] == UpperAll(kept[..c])
      invariant forall i | c <= i < |kept| :: buffer[i] == kept[i]
      invariant buffer[|kept|..] == old(buffer[|kept|..]) && buffer[|kept|] == NUL
      decreases |kept| - c
    {
      UpperAllStep(kept, c);
      buffer[c] := Upper(buffer[c]);
      c := c + 1;
    }
    assert kept[..c] == kept;
  }

  /** Print `{#name}` into the local buffer and upper-case it. */
  method DiscoveryKey(column: string) returns (key: string)
    requires IsCString(column)
    ensures key == MacroOf(column)
  {
    var buffer := new char[MAX_STRING_LEN](_ => NUL);
    ghost var kept := Clipped("{#" + column + "}", MAX_STRING_LEN);
    MacroTextOk(column);
    AppendNothing(kept);
    PrintAt(buffer, 0, MAX_STRING_LEN, "{#" + column + "}", "");
    UpperInPlace(buffer, kept);
    UpperIsCString(kept);
    BufReads(buffer[..], UpperAll(kept));
    key := TextAt(buffer[..], 0);
  }

  // ---- Objects ----

  /** `PQgetvalue`. */
  function Cell(row: seq<string>, x: nat): string {
    if x < |row| then row[x] else ""
  }

  function FieldsOf(columns: seq<string>, row: seq<string>, n: nat): JsonObject
    requires n <= |columns|
  {
    if n == 0 then [] else FieldsOf(columns, row, n - 1) + [Field(MacroOf(columns[n - 1]), Cell(row, n - 1))]
  }

  /** The objects of the first `n` rows, each with one field a column, in column order. */
  function ObjectsOf(columns: seq<string>, rows: seq<seq<string>>, n: nat): seq<JsonObject>
    requires n <= |rows|
  {
    if n == 0 then [] else ObjectsOf(columns, rows, n - 1) + [FieldsOf(columns, rows[n - 1], |columns|)]
  }

  function AllObjects(r: QueryResult): seq<JsonObject> {
    if r.Tuples? then ObjectsOf(r.columns, r.rows, |r.rows|) else []
  }

  lemma {:induction false} FieldAt(columns: seq<string>, row: seq<string>, n: nat, x: nat)
    requires x < n <= |columns|
    ensures |FieldsOf(columns, row, n)| == n
    ensures FieldsOf(columns, row, n)[x] == Field(MacroOf(columns[x]), Cell(row, x))
  {
    if n > 1 {
      FieldAt(columns, row, n - 1, if x < n - 1 then x else 0);
    }
  }

  lemma {:induction false} ObjectAt(columns: seq<string>, rows: seq<seq<string>>, n: nat, i: nat)
    requires i < n <= |rows|
    ensures |ObjectsOf(columns, rows, n)| == n
    ensures ObjectsOf(columns, rows, n)[i] == FieldsOf(columns, rows[i], |columns|)
  {
    if n > 1 {
      ObjectAt(columns, rows, n - 1, if i < n - 1 then i else 0);
    }
  }

  /** Every row gives one object, and every column of it one field, under the column's macro. */
  lemma EveryCellKeptOnce(r: QueryResult, i: nat, x: nat)
    requires WellFormed(r) && r.Tuples? && i < |r.rows| && x < |r.columns|
    ensures |AllObjects(r)| == |r.rows| && |AllObjects(r)[i]| == |r.columns|
    ensures x < |r.rows[i]| && AllObjects(r)[i][x] == Field(MacroOf(r.columns[x]), r.rows[i][x])
  {
    RowOk(r.rows, |r.columns|, i);
    ObjectAt(r.columns, r.rows, |r.rows|, i);
    FieldAt(r.columns, r.rows[i], |r.columns|, x);
  }

  /** The JSON under construction: the closed objects of the data array and the open one. */
  class Json {
    var objects: seq<JsonObject>
    var current: JsonObject

    constructor ()
      ensures objects == [] && current == []
    {
      objects, current := [], [];
    }

    method AddObject()
      modifies this
      ensures objects == old(objects) && current == []
    {
      current := [];
    }

    method AddString(key: string, value: string)
      modifies this
      ensures objects == old(objects) && current == old(current) + [Field(key, value)]
    {
      current := current + [Field(key, value)];
    }

    method CloseObject()
      modifies this
      ensures objects == old(objects) + [old(current)] && current == []
    {
      objects, current := objects + [current], [];
    }
  }

  /** One object with a field for each column. */
  method EmitRow(j: Json, columns: seq<string>, row: seq<string>)
    requires CellsOk(columns) && |row| == |columns|
    modifies j
    ensures j.objects == old(j.objects) + [FieldsOf(columns, row, |columns|)]
  {
    j.AddObject();
    for x := 0 to |columns|
      invariant j.objects == old(j.objects) && j.current == FieldsOf(columns, row, x)
    {
      CellOk(columns, x);
      var key := DiscoveryKey(columns[x]);
      j.AddString(key, row[x]);
    }
    j.CloseObject();
  }

  /** The loop over the rows: an object for each. */
  method EmitRows(j: Json, res: QueryResult)
    requires WellFormed(res) && res.Tuples?
    modifies j
    ensures j.objects == old(j.objects) + AllObjects(res)
  {
    ghost var before := j.objects;
    AppendNothing(before);
    for i := 0 to |res.rows|
      invariant j.objects == before + ObjectsOf(res.columns, res.rows, i)
    {
      RowOk(res.rows, |res.columns|, i);
      EmitRow(j, res.columns, res.rows[i]);
      AppendAssociative(before, ObjectsOf(res.columns, res.rows, i),
                        [FieldsOf(res.columns, res.rows[i], |res.columns|)]);
    }
  }

  // ---- The list of databases ----

  function FirstColumn(rows: seq<seq<string>>): (names: seq<string>)
    ensures |names| == |rows|
  {
    if rows == [] then [] else FirstColumn(rows[..|rows| - 1]) + [Cell(rows[|rows| - 1], 0)]
  }

  lemma {:induction false} FirstColumnIsCStrings(rows: seq<seq<string>>, width: nat)
    requires width > 0 && RowsOk(rows, width)
    ensures AllCStrings(FirstColumn(rows))
  {
    if rows != [] {
      FirstColumnIsCStrings(rows[..|rows| - 1], width);
      CellOk(rows[|rows| - 1], 0);
    }
  }

  /** The databases listed on connection `id`; none if connecting or listing fails. */
  function Listed(server: Server, id: nat, conninfo: string): seq<string> {
    var res := QueryReply(server, id, conninfo, DATABASES_SQL, []);
    if res.Tuples? then FirstColumn(res.rows) else []
  }

  lemma ListedAreCStrings(server: Server, id: nat, conninfo: string)
    ensures AllCStrings(Listed(server, id, conninfo))
  {
    var res := QueryReply(server, id, conninfo, DATABASES_SQL, []);
    if res.Tuples? {
      FirstColumnIsCStrings(res.rows, |res.columns|);
    }
  }

  /** The connection string of a request's own parameters. */
  function ConnInfo(request: AgentRequest): string {
    ConnString(ConnParam(request), DbParam(request))
  }

  /** Parameter 0 is the connection string, parameter 1 the database. */
  lemma ConnInfoByPosition(request: AgentRequest)
    ensures var ps := request.params;
            ConnInfo(request) ==
              (if 0 < |ps| && ps[0].Str? && ps[0].text != "" then ps[0].text + " " else "")
              + "dbname=" + (if 1 < |ps| && ps[1].Str? then ps[1].text else "")
  {
  }

  lemma {:induction false} FirstColumnAt(rows: seq<seq<string>>, width: nat, i: nat)
    requires width > 0 && RowsOk(rows, width) && i < |rows|
    ensures |rows[i]| > 0 && FirstColumn(rows)[i] == rows[i][0]
  {
    if i < |rows| - 1 {
      FirstColumnAt(rows[..|rows| - 1], width, i);
    }
  }

  /** The databases listed are the first cells of the answer's rows, in order. */
  lemma ListedMeaning(server: Server, id: nat, conninfo: string)
    ensures var res, names := server.Reply(id, conninfo, DATABASES_SQL, []), Listed(server, id, conninfo);
            if server.accepts(id, conninfo) && res.Tuples? then
              && |names| == |res.rows|
              && forall i | 0 <= i < |res.rows| :: |res.rows[i]| > 0 && names[i] == res.rows[i][0]
            else names == []
  {
    var res := server.Reply(id, conninfo, DATABASES_SQL, []);
    if server.accepts(id, conninfo) && res.Tuples? {
      forall i | 0 <= i < |res.rows| ensures |res.rows[i]| > 0 && FirstColumn(res.rows)[i] == res.rows[i][0] {
        FirstColumnAt(res.rows, |res.columns|, i);
      }
    }
  }

  /** `pg_connect_request`: connect with the request's own parameters. */
  method PgConnectRequest(lib: Client, request: AgentRequest) returns (conn: PGconn)
    requires ConnParamsOk(request)
    modifies lib
    ensures var conninfo := ConnInfo(request);
            && conn == ConnectResult(lib.server, old(lib.nextId), conninfo)
            && lib.log == old(lib.log) + ConnectLog(lib.server, old(lib.nextId), conninfo)
    ensures lib.nextId == old(lib.nextId) + 1
  {
    var connstring := BuildConnstring(ConnParam(request), DbParam(request));
    conn := lib.PgConnect(TextAt(connstring[..], 0));
  }

  /** The multi-string of connectable databases, or NULL. */
  method PgGetDatabases(lib: Client, heap: Heap, request: AgentRequest) returns (databases: array?<char>)
    requires ConnParamsOk(request)
    modifies lib, heap
    ensures heap.live == old(heap.live)
    ensures var id, conninfo := old(lib.nextId), ConnInfo(request);
            && lib.nextId == id + 1
            && lib.log == old(lib.log) + QueryLog(lib.server, id, conninfo, DATABASES_SQL, [])
            && (databases == null <==> Listed(lib.server, id, conninfo) == [])
            && (databases != null ==> fresh(databases) && databases[..] == Packed(Listed(lib.server, id, conninfo)))
  {
    ghost var log := lib.log;
    ghost var id, conninfo := lib.nextId, ConnInfo(request);
    databases := null;
    var conn := PgConnectRequest(lib, request);
    if conn.NoConn? {
      assert ConnectLog(lib.server, id, conninfo) == [Open(id, conninfo), Finish(id)];
      return;
    }
    var res := lib.PgExec(heap, conn, DATABASES_SQL, null, []);
    if res.Tuples? && |res.rows| != 0 {
      ListedAreCStrings(lib.server, id, conninfo);
      databases := PackNames(FirstColumn(res.rows));
    }
    lib.PQfinish(conn);
    assert lib.log == log + [Open(id, conninfo)] + [Exec(id, DATABASES_SQL, [])] + [Finish(id)];
  }

  // ---- Wide discovery ----

  /** What visiting databases does: the events, whether every step succeeded, the objects found. */
  datatype Visits = Visits(log: seq<Event>, ok: bool, objects: seq<JsonObject>) {
    function Then(rest: Visits): Visits {
      Visits(log + rest.log, rest.ok, objects + rest.objects)
    }
  }

  /** Connect to one database, run the command and finish the connection. */
  function VisitOne(server: Server, id: nat, conninfo: string, sql: string): Visits {
    var res := QueryReply(server, id, conninfo, sql, []);
    Visits(QueryLog(server, id, conninfo, sql, []), res.Tuples?, AllObjects(res))
  }

  /** What visiting each database would do, the i-th over connection `id + i`. */
  function Steps(server: Server, id: nat, connstring: CharPtr, sql: string, names: seq<string>): (steps: seq<Visits>)
    ensures |steps| == |names|
  {
    if names == [] then []
    else
      var k := |names| - 1;
      Steps(server, id, connstring, sql, names[..k])
      + [VisitOne(server, id + k, ConnString(connstring, Str(names[k])), sql)]
  }

  lemma {:induction false} StepAt(server: Server, id: nat, connstring: CharPtr, sql: string, names: seq<string>, k: nat)
    requires k < |names|
    ensures Steps(server, id, connstring, sql, names)[k] ==
            VisitOne(server, id + k, ConnString(connstring, Str(names[k])), sql)
  {
    if k < |names| - 1 {
      StepAt(server, id, connstring, sql, names[..|names| - 1], k);
    }
  }

  /** One step after the other from the `k`-th on, stopping at the first failure. */
  function Chain(steps: seq<Visits>, k: nat): Visits
    requires k <= |steps|
    decreases |steps| - k
  {
    if k == |steps| then Visits([], true, [])
    else if steps[k].ok then steps[k].Then(Chain(steps, k + 1))
    else steps[k]
  }

  /** Visit the databases in order, stopping at the first failure. */
  function Visiting(server: Server, id: nat, connstring: CharPtr, sql: string, names: seq<string>): Visits {
    Chain(Steps(server, id, connstring, sql, names), 0)
  }

  /** The rest of the chain after one more step, whatever was logged and collected before. */
  lemma ChainAdvance(steps: seq<Visits>, k: nat, log: seq<Event>, objects: seq<JsonObject>)
    requires k < |steps|
    ensures var v, one, rest := Chain(steps, k), steps[k], Chain(steps, k + 1);
            if one.ok then
              && (log + one.log) + rest.log == log + v.log && v.ok == rest.ok
              && (objects + one.objects) + rest.objects == objects + v.objects
            else v == one
  {
    var one, rest := steps[k], Chain(steps, k + 1);
    AppendAssociative(log, one.log, rest.log);
    AppendAssociative(objects, one.objects, rest.objects);
  }

  /** Every database from the `k`-th on can be connected to and queried. */
  predicate AllSucceed(server: Server, id: nat, connstring: CharPtr, sql: string, names: seq<string>, k: nat)
    decreases |names| - k
  {
    k >= |names| ||
    (var conninfo := ConnString(connstring, Str(names[k]));
     && server.accepts(id + k, conninfo)
     && server.Reply(id + k, conninfo, sql, []).Tuples?
     && AllSucceed(server, id, connstring, sql, names, k + 1))
  }

  /** The objects of the databases from the `k`-th on, in the order of their names. */
  function Concatenated(
    server: Server, id: nat, connstring: CharPtr, sql: string, names: seq<string>, k: nat): seq<JsonObject>
    decreases |names| - k
  {
    if k >= |names| then []
    else
      AllObjects(server.Reply(id + k, ConnString(connstring, Str(names[k])), sql, []))
      + Concatenated(server, id, connstring, sql, names, k + 1)
  }

  /** Visiting succeeds exactly when every step does, and then yields every database's objects in order. */
  lemma {:induction false} ChainSucceedsIff(
    server: Server, id: nat, connstring: CharPtr, sql: string, names: seq<string>, k: nat)
    requires k <= |names|
    ensures var v := Chain(Steps(server, id, connstring, sql, names), k);
            && (v.ok <==> AllSucceed(server, id, connstring, sql, names, k))
            && (v.ok ==> v.objects == Concatenated(server, id, connstring, sql, names, k))
    decreases |names| - k
  {
    if k < |names| {
      ChainSucceedsIff(server, id, connstring, sql, names, k + 1);
      StepAt(server, id, connstring, sql, names, k);
    }
  }

  /** The log is in order and no connection is held. */
  predicate AtRest(log: seq<Event>) {
    Numbered(log) && Run(Idle, log) == Idle
  }

  lemma PushEvent(log: seq<Event>, e: Event)
    requires Numbered(log) && (e.Open? ==> e.id == Opens(log))
    ensures Numbered(log + [e]) && Run(Idle, log + [e]) == Step(Run(Idle, log), e)
    ensures Opens(log + [e]) == Opens(log) + if e.Open? then 1 else 0
  {
    assert (log + [e])[..|log|] == log;
  }

  lemma OneByOne(log: seq<Event>, a: Event, b: Event, c: Event)
    ensures log + [a] + [b] == log + [a, b]
    ensures log + [a] + [b] + [c] == log + [a, b, c]
  {
  }

  /** A session, refused or not, leaves no connection held. */
  lemma SessionIsBalanced(server: Server, log: seq<Event>, conninfo: string, sql: string, args: seq<string>)
    requires AtRest(log)
    ensures var after := log + QueryLog(server, Opens(log), conninfo, sql, args);
            AtRest(after) && Opens(after) == Opens(log) + 1
  {
    var id := Opens(log);
    var open, exec, finish := Open(id, conninfo), Exec(id, sql, args), Finish(id);
    var l1 := log + [open];
    PushEvent(log, open);
    if server.accepts(id, conninfo) {
      PushEvent(l1, exec);
      PushEvent(l1 + [exec], finish);
      OneByOne(log, open, exec, finish);
    } else {
      PushEvent(l1, finish);
      OneByOne(log, open, finish, finish);
    }
  }

  /** However far it gets, visiting leaves no connection held. */
  lemma {:induction false} ChainIsBalanced(
    server: Server, id: nat, connstring: CharPtr, sql: string, names: seq<string>, k: nat, log: seq<Event>)
    requires k <= |names| && AtRest(log) && Opens(log) == id + k
    ensures AtRest(log + Chain(Steps(server, id, connstring, sql, names), k).log)
    decreases |names| - k
  {
    var steps := Steps(server, id, connstring, sql, names);
    if k == |names| {
      AppendNothing(log);
    } else {
      StepAt(server, id, connstring, sql, names, k);
      SessionIsBalanced(server, log, ConnString(connstring, Str(names[k])), sql, []);
      if steps[k].ok {
        ChainIsBalanced(server, id, connstring, sql, names, k + 1, log + steps[k].log);
        AppendAssociative(log, steps[k].log, Chain(steps, k + 1).log);
      }
    }
  }

  /** Where the cursor stands after `k` names. */
  function CursorPos(names: seq<string>, k: nat): nat
    requires k <= |names|
  {
    if k == 0 then 0 else CursorPos(names, k - 1) + |names[k - 1]| + 1
  }

  lemma {:induction false} CursorPosIsJoined(names: seq<string>, k: nat)
    requires k <= |names|
    ensures CursorPos(names, k) == |Joined(names[..k])|
  {
    if k > 0 {
      CursorPosIsJoined(names, k - 1);
      assert names[..k][..k - 1] == names[..k - 1];
    }
  }

  /** What the cursor finds after `k` of the names before the first empty one. */
  lemma CursorFinds(names: seq<string>, k: nat)
    requires AllCStrings(names) && k <= |BeforeEmpty(names)|
    ensures var buf, seen := Packed(names), BeforeEmpty(names);
            && CursorPos(seen, k) < |buf|
            && (buf[CursorPos(seen, k)] == NUL <==> k == |seen|)
            && (k < |seen| ==> TextAt(buf, CursorPos(seen, k)) == seen[k] && IsCString(seen[k]))
  {
    var seen := BeforeEmpty(names);
    BeforeEmptyIsPrefix(names);
    CursorPosIsJoined(seen, k);
    assert seen[..k] == names[..k];
    if k < |names| {
      NameAt(names, k);
      if k < |seen| {
        assert seen[k] == names[k] && names[k] in names[..|seen|];
      }
    } else {
      assert names[..k] == names;
    }
  }

  /** What a wide discovery starting with connection `id` does. */
  function Wide(server: Server, id: nat, request: AgentRequest, sql: string): Visits {
    var conninfo := ConnInfo(request);
    var names := Listed(server, id, conninfo);
    var visits := Visiting(server, id + 1, ConnParam(request), sql, BeforeEmpty(names));
    Visits(QueryLog(server, id, conninfo, DATABASES_SQL, []) + visits.log, names != [] && visits.ok, visits.objects)
  }

  /** The listing session first, then the visits; no visits if nothing is listed. */
  lemma WideSplits(server: Server, id: nat, request: AgentRequest, sql: string, log: seq<Event>)
    ensures var names := Listed(server, id, ConnInfo(request));
            var listing := QueryLog(server, id, ConnInfo(request), DATABASES_SQL, []);
            var visits := Visiting(server, id + 1, ConnParam(request), sql, BeforeEmpty(names));
            var w := Wide(server, id, request, sql);
            && (log + listing) + visits.log == log + w.log
            && (names == [] ==> log + listing == log + w.log)
            && w.ok == (names != [] && visits.ok) && w.objects == visits.objects
  {
    var names := Listed(server, id, ConnInfo(request));
    var listing := QueryLog(server, id, ConnInfo(request), DATABASES_SQL, []);
    AppendAssociative(log, listing, Visiting(server, id + 1, ConnParam(request), sql, BeforeEmpty(names)).log);
    AppendNothing(listing);
  }

  /**
  For every server, a wide discovery holds at most one connection at any
  moment, finishes each one it opens exactly once and returns with none held.
  */
  lemma WideIsBalanced(server: Server, request: AgentRequest, sql: string, log: seq<Event>)
    requires AtRest(log)
    ensures var after := log + Wide(server, Opens(log), request, sql).log;
            AtRest(after) && AtMostOneHeld(after) && EachFinishedOnce(after)
  {
    WideEndsAtRest(server, request, sql, log);
    IdleMeansBalanced(log + Wide(server, Opens(log), request, sql).log);
  }

  lemma WideEndsAtRest(server: Server, request: AgentRequest, sql: string, log: seq<Event>)
    requires AtRest(log)
    ensures AtRest(log + Wide(server, Opens(log), request, sql).log)
  {
    var id, conninfo := Opens(log), ConnInfo(request);
    var listing := QueryLog(server, id, conninfo, DATABASES_SQL, []);
    var names := BeforeEmpty(Listed(server, id, conninfo));
    SessionIsBalanced(server, log, conninfo, DATABASES_SQL, []);
    ChainIsBalanced(server, id + 1, ConnParam(request), sql, names, 0, log + listing);
    var visits := Visiting(server, id + 1, ConnParam(request), sql, names).log;
    AppendAssociative(log, listing, visits);
  }

  /**
  Wide discovery succeeds exactly when every step does; its objects are those of
  each database, in packed-name order.
  */
  lemma WideSucceedsIff(server: Server, id: nat, request: AgentRequest, sql: string)
    ensures var conninfo := ConnInfo(request);
            var names := Listed(server, id, conninfo);
            var seen := Walk(Packed(names), 0);
            var w := Wide(server, id, request, sql);
            && (w.ok <==> names != [] && AllSucceed(server, id + 1, ConnParam(request), sql, seen, 0))
            && (w.ok ==> w.objects == Concatenated(server, id + 1, ConnParam(request), sql, seen, 0))
  {
    var names := Listed(server, id, ConnInfo(request));
    ListedAreCStrings(server, id, ConnInfo(request));
    PackedRoundTrip(names);
    ChainSucceedsIff(server, id + 1, ConnParam(request), sql, BeforeEmpty(names), 0);
  }

  /** Three events at `at`: the connection is opened, used for the query and finished. */
  predicate VisitAt(log: seq<Event>, at: nat, id: nat, conninfo: string, sql: string) {
    at + 2 < |log| && log[at] == Open(id, conninfo) && log[at + 1] == Exec(id, sql, []) && log[at + 2] == Finish(id)
  }

  lemma VisitShifts(three: seq<Event>, log: seq<Event>, at: nat, id: nat, conninfo: string, sql: string)
    requires |three| == 3 && VisitAt(log, at, id, conninfo, sql)
    ensures VisitAt(three + log, at + 3, id, conninfo, sql)
  {
  }

  lemma VisitInSlice(log: seq<Event>, at: nat, three: seq<Event>, id: nat, conninfo: string, sql: string)
    requires at + 3 <= |log| && log[at..at + 3] == three && VisitAt(three, 0, id, conninfo, sql)
    ensures VisitAt(log, at, id, conninfo, sql)
  {
    assert three[0] == log[at] && three[1] == log[at + 1] && three[2] == log[at + 2];
  }

  lemma SessionEvents(server: Server, id: nat, conninfo: string, sql: string)
    requires server.accepts(id, conninfo)
    ensures |QueryLog(server, id, conninfo, sql, [])| == 3
    ensures VisitAt(QueryLog(server, id, conninfo, sql, []), 0, id, conninfo, sql)
  {
  }

  /** Every step from the `k`-th on succeeds with three events. */
  predicate AllThree(steps: seq<Visits>, k: nat)
    decreases |steps| - k
  {
    k >= |steps| || (steps[k].ok && |steps[k].log| == 3 && AllThree(steps, k + 1))
  }

  lemma ThreeInFront(three: seq<Event>, log: seq<Event>, at: nat)
    requires |three| == 3 && at + 3 <= |log|
    ensures (three + log)[at + 3..at + 6] == log[at..at + 3] && (three + log)[..3] == three
  {
  }

  lemma {:induction false} ChainSlice(steps: seq<Visits>, k: nat, j: nat)
    requires k <= j < |steps| && AllThree(steps, k)
    ensures var log, at := Chain(steps, k).log, 3 * (j - k);
            at + 3 <= |log| && log[at..at + 3] == steps[j].log
    decreases j - k
  {
    var rest := Chain(steps, k + 1).log;
    if k < j {
      ChainSlice(steps, k + 1, j);
      ThreeInFront(steps[k].log, rest, 3 * (j - (k + 1)));
    } else {
      assert (steps[k].log + rest)[0..3] == steps[k].log;
    }
  }

  lemma {:induction false} SuccessIsThree(
    server: Server, id: nat, connstring: CharPtr, sql: string, names: seq<string>, k: nat)
    requires k <= |names| && AllSucceed(server, id, connstring, sql, names, k)
    ensures AllThree(Steps(server, id, connstring, sql, names), k)
    decreases |names| - k
  {
    if k < |names| {
      SuccessIsThree(server, id, connstring, sql, names, k + 1);
      StepAt(server, id, connstring, sql, names, k);
      SessionEvents(server, id + k, ConnString(connstring, Str(names[k])), sql);
    }
  }

  lemma VisitInChain(steps: seq<Visits>, j: nat, id: nat, conninfo: string, sql: string)
    requires j < |steps| && AllThree(steps, 0) && |steps[j].log| == 3 && VisitAt(steps[j].log, 0, id, conninfo, sql)
    ensures VisitAt(Chain(steps, 0).log, 3 * j, id, conninfo, sql)
  {
    ChainSlice(steps, 0, j);
    VisitInSlice(Chain(steps, 0).log, 3 * j, steps[j].log, id, conninfo, sql);
  }

  lemma StepEvents(server: Server, id: nat, connstring: CharPtr, sql: string, names: seq<string>, j: nat)
    requires j < |names| && server.accepts(id + j, ConnString(connstring, Str(names[j])))
    ensures var log := Steps(server, id, connstring, sql, names)[j].log;
            |log| == 3 && VisitAt(log, 0, id + j, ConnString(connstring, Str(names[j])), sql)
  {
    StepAt(server, id, connstring, sql, names, j);
    SessionEvents(server, id + j, ConnString(connstring, Str(names[j])), sql);
  }

  lemma AcceptedAt(server: Server, id: nat, connstring: CharPtr, sql: string, names: seq<string>, j: nat)
    requires j < |names| && AllSucceed(server, id, connstring, sql, names, 0)
    ensures server.accepts(id + j, ConnString(connstring, Str(names[j])))
  {
    AllSucceedMeaning(server, id, connstring, sql, names, 0);
    assert VisitSucceeds(server, id + j, ConnString(connstring, Str(names[j])), sql);
  }

  /** The events of the `j`-th visit, when all succeed. */
  lemma ChainVisits(server: Server, id: nat, connstring: CharPtr, sql: string, names: seq<string>, j: nat)
    requires j < |names| && AllSucceed(server, id, connstring, sql, names, 0)
    ensures VisitAt(Visiting(server, id, connstring, sql, names).log, 3 * j,
                    id + j, ConnString(connstring, Str(names[j])), sql)
  {
    var steps := Steps(server, id, connstring, sql, names);
    AcceptedAt(server, id, connstring, sql, names, j);
    SuccessIsThree(server, id, connstring, sql, names, 0);
    StepEvents(server, id, connstring, sql, names, j);
    VisitInChain(steps, j, id + j, ConnString(connstring, Str(names[j])), sql);
  }

  /** Connecting and the query succeed. */
  predicate VisitSucceeds(server: Server, id: nat, conninfo: string, sql: string) {
    server.accepts(id, conninfo) && server.Reply(id, conninfo, sql, []).Tuples?
  }

  /** Every database from the `k`-th on, one by one. */
  lemma {:induction false} AllSucceedMeaning(
    server: Server, id: nat, connstring: CharPtr, sql: string, names: seq<string>, k: nat)
    requires k <= |names|
    ensures AllSucceed(server, id, connstring, sql, names, k) <==>
            forall j | k <= j < |names| :: VisitSucceeds(server, id + j, ConnString(connstring, Str(names[j])), sql)
    decreases |names| - k
  {
    if k < |names| {
      AllSucceedMeaning(server, id, connstring, sql, names, k + 1);
    }
  }

  /** The first `n` rows are those before the first whose first cell is empty. */
  predicate SeenRows(rows: seq<seq<string>>, n: nat) {
    && n <= |rows| && (forall k | 0 <= k < |rows| :: |rows[k]| > 0)
    && (forall k | 0 <= k < n :: rows[k][0] != "") && (n < |rows| ==> rows[n][0] == "")
  }

  /** Connecting with the first cell of each of the first `n` rows and the query succeed. */
  predicate RowsSucceed(server: Server, id: nat, connstring: CharPtr, sql: string, rows: seq<seq<string>>, n: nat)
    requires SeenRows(rows, n)
  {
    forall k | 0 <= k < n :: VisitSucceeds(server, id + k, ConnString(connstring, Str(rows[k][0])), sql)
  }

  lemma SeenAre(names: seq<string>, n: nat)
    requires n <= |names| && (forall k | 0 <= k < n :: names[k] != "") && (n < |names| ==> names[n] == "")
    ensures BeforeEmpty(names) == names[..n]
  {
    BeforeEmptyIsPrefix(names);
    assert |BeforeEmpty(names)| >= n;
  }

  /** The databases visited are the first cells of those rows. */
  lemma SeenListed(server: Server, id: nat, conninfo: string, n: nat)
    requires var res := server.Reply(id, conninfo, DATABASES_SQL, []);
             server.accepts(id, conninfo) && res.Tuples? && SeenRows(res.rows, n)
    ensures var rows := server.Reply(id, conninfo, DATABASES_SQL, []).rows;
            var seen := BeforeEmpty(Listed(server, id, conninfo));
            |seen| == n && forall k | 0 <= k < n :: seen[k] == rows[k][0]
  {
    ListedMeaning(server, id, conninfo);
    SeenAre(Listed(server, id, conninfo), n);
  }

  /**
  Wide discovery in terms of the listing's rows. With `n` rows before the first
  whose first cell is empty, it succeeds exactly when the listing has rows and,
  for each of those n, connecting with the row's first cell and the query
  succeed.
  */
  lemma WideByRows(server: Server, id: nat, request: AgentRequest, sql: string, n: nat)
    requires var res := server.Reply(id, ConnInfo(request), DATABASES_SQL, []);
             res.Tuples? ==> SeenRows(res.rows, n)
    ensures var res := server.Reply(id, ConnInfo(request), DATABASES_SQL, []);
            Wide(server, id, request, sql).ok <==>
              && server.accepts(id, ConnInfo(request)) && res.Tuples? && res.rows != []
              && RowsSucceed(server, id + 1, ConnParam(request), sql, res.rows, n)
  {
    var conninfo := ConnInfo(request);
    var res, names := server.Reply(id, conninfo, DATABASES_SQL, []), Listed(server, id, conninfo);
    ListedMeaning(server, id, conninfo);
    WideOk(server, id, request, sql);
    if server.accepts(id, conninfo) && res.Tuples? {
      SeenListed(server, id, conninfo, n);
      SucceedByRows(server, id + 1, ConnParam(request), sql, BeforeEmpty(names), res.rows, n);
    }
  }

  lemma SucceedByRows(server: Server, id: nat, connstring: CharPtr, sql: string,
                      seen: seq<string>, rows: seq<seq<string>>, n: nat)
    requires SeenRows(rows, n) && |seen| == n && forall k | 0 <= k < n :: seen[k] == rows[k][0]
    ensures AllSucceed(server, id, connstring, sql, seen, 0) <==> RowsSucceed(server, id, connstring, sql, rows, n)
  {
    AllSucceedMeaning(server, id, connstring, sql, seen, 0);
  }

  lemma WideOk(server: Server, id: nat, request: AgentRequest, sql: string)
    ensures var names := Listed(server, id, ConnInfo(request));
            Wide(server, id, request, sql).ok <==>
              names != [] && AllSucceed(server, id + 1, ConnParam(request), sql, BeforeEmpty(names), 0)
  {
    var seen := BeforeEmpty(Listed(server, id, ConnInfo(request)));
    ChainSucceedsIff(server, id + 1, ConnParam(request), sql, seen, 0);
  }

  /** The `k`-th visit opens a connection to the first cell of the `k`-th row, runs the query and finishes it. */
  lemma WideVisitsRow(server: Server, id: nat, request: AgentRequest, sql: string, n: nat, k: nat)
    requires Wide(server, id, request, sql).ok
    requires var res := server.Reply(id, ConnInfo(request), DATABASES_SQL, []);
             res.Tuples? && SeenRows(res.rows, n) && k < n
    ensures var rows := server.Reply(id, ConnInfo(request), DATABASES_SQL, []).rows;
            VisitAt(Wide(server, id, request, sql).log, 3 * k + 3,
                    id + 1 + k, ConnString(ConnParam(request), Str(rows[k][0])), sql)
  {
    var conninfo := ConnInfo(request);
    var seen := BeforeEmpty(Listed(server, id, conninfo));
    WideOk(server, id, request, sql);
    ListedMeaning(server, id, conninfo);
    SeenListed(server, id, conninfo, n);
    var conn := ConnString(ConnParam(request), Str(seen[k]));
    var listing := QueryLog(server, id, conninfo, DATABASES_SQL, []);
    var visits := Visiting(server, id + 1, ConnParam(request), sql, seen).log;
    ChainVisits(server, id + 1, ConnParam(request), sql, seen, k);
    SessionEvents(server, id, conninfo, DATABASES_SQL);
    VisitShifts(listing, visits, 3 * k, id + 1 + k, conn, sql);
  }

  /** One iteration of the database loop. */
  method VisitDatabase(lib: Client, heap: Heap, j: Json, connstring: CharPtr, name: string, query: string)
    returns (ok: bool)
    requires IsCString(TextOf(connstring)) && IsCString(name)
    modifies lib, heap, j
    ensures heap.live == old(heap.live) && lib.nextId == old(lib.nextId) + 1
    ensures var one := VisitOne(lib.server, old(lib.nextId), ConnString(connstring, Str(name)), query);
            && lib.log == old(lib.log) + one.log && ok == one.ok && j.objects == old(j.objects) + one.objects
  {
    ghost var log, id, conninfo := lib.log, lib.nextId, ConnString(connstring, Str(name));
    var built := BuildConnstring(connstring, Str(name));
    var conn := lib.PgConnect(TextAt(built[..], 0));
    if conn.NoConn? {
      return false;
    }
    var res := lib.PgExec(heap, conn, query, null, []);
    if res.Tuples? {
      EmitRows(j, res);
    }
    lib.PQfinish(conn);
    assert lib.log == log + [Open(id, conninfo)] + [Exec(id, query, [])] + [Finish(id)];
    return res.Tuples?;
  }

  /**
  Query every connectable database over its own connection. The parameters are
  released by the first `pg_exec`, so every caller passes NULL.
  */
  method PgGetDiscoveryWide(lib: Client, heap: Heap, request: AgentRequest, query: string, params: PGparams)
    returns (ok: bool, data: seq<JsonObject>)
    requires ConnParamsOk(request) && params == null
    modifies lib, heap
    ensures heap.live == old(heap.live)
    ensures var w := Wide(lib.server, old(lib.nextId), request, query);
            && lib.log == old(lib.log) + w.log && ok == w.ok && (ok ==> data == w.objects)
  {
    ghost var names := Listed(lib.server, lib.nextId, ConnInfo(request));
    WideSplits(lib.server, lib.nextId, request, query, lib.log);
    ListedAreCStrings(lib.server, lib.nextId, ConnInfo(request));
    var databases := PgGetDatabases(lib, heap, request);
    if databases == null {
      return false, [];
    }
    ok, data := QueryEach(lib, heap, request, query, databases, names);
  }

  /** The loop over the multi-string. */
  method QueryEach(lib: Client, heap: Heap, request: AgentRequest, query: string,
                   databases: array<char>, ghost names: seq<string>)
    returns (ok: bool, data: seq<JsonObject>)
    requires ConnParamsOk(request) && AllCStrings(names) && databases[..] == Packed(names)
    modifies lib, heap
    ensures heap.live == old(heap.live)
    ensures var v := Visiting(lib.server, old(lib.nextId), ConnParam(request), query, BeforeEmpty(names));
            && lib.log == old(lib.log) + v.log && ok == v.ok && (ok ==> data == v.objects)
  {
    ghost var seen, id, log := BeforeEmpty(names), lib.nextId, lib.log;
    ghost var steps := Steps(lib.server, id, ConnParam(request), query, seen);
    ghost var whole := Chain(steps, 0);
    var j := new Json();
    var db: nat := 0;
    ghost var k := 0;
    AppendNothing(whole.objects);
    CursorFinds(names, 0);
    while databases[db] != NUL
      invariant 0 <= k <= |seen| && db == CursorPos(seen, k) < databases.Length
      invariant databases[..] == Packed(names)
      invariant databases[db] == NUL <==> k == |seen|
      invariant lib.nextId == id + k && heap.live == old(heap.live)
      invariant OnTrack(steps, k, log, lib.log, j.objects)
      decreases |seen| - k
    {
      var name, next := NameUnder(databases, db, names, k);
      ok := VisitNext(lib, heap, j, ConnParam(request), name, query, seen, id, k, steps, log);
      if !ok {
        return false, [];
      }
      db, k := next, k + 1;
    }
    AppendNothing(lib.log);
    AppendNothing(j.objects);
    return true, j.objects;
  }

  /** The name under the cursor, and the cursor moved past it: `db + strlen(db) + 1`. */
  method NameUnder(databases: array<char>, db: nat, ghost names: seq<string>, ghost k: nat)
    returns (name: string, next: nat)
    requires AllCStrings(names) && databases[..] == Packed(names)
    requires k < |BeforeEmpty(names)| && db == CursorPos(BeforeEmpty(names), k)
    ensures name == BeforeEmpty(names)[k] && IsCString(name)
    ensures next == CursorPos(BeforeEmpty(names), k + 1) < databases.Length
    ensures databases[next] == NUL <==> k + 1 == |BeforeEmpty(names)|
  {
    CursorFinds(names, k);
    CursorFinds(names, k + 1);
    name := TextAt(databases[..], db);
    next := db + |name| + 1;
  }

  /**
  Before the `k`-th step, what was done and the rest of the chain make up the
  whole; `log` is the log before the first.
  */
  ghost predicate OnTrack(steps: seq<Visits>, k: nat, log: seq<Event>, now: seq<Event>, objects: seq<JsonObject>)
    requires k <= |steps|
  {
    var whole, rest := Chain(steps, 0), Chain(steps, k);
    now + rest.log == log + whole.log && rest.ok == whole.ok && objects + rest.objects == whole.objects
  }

  /** One iteration of the database loop: the `k`-th step. */
  method VisitNext(lib: Client, heap: Heap, j: Json, connstring: CharPtr, name: string, query: string,
                   ghost names: seq<string>, ghost id: nat, ghost k: nat,
                   ghost steps: seq<Visits>, ghost log: seq<Event>)
    returns (ok: bool)
    requires IsCString(TextOf(connstring)) && IsCString(name)
    requires k < |names| && name == names[k] && lib.nextId == id + k
    requires steps == Steps(lib.server, id, connstring, query, names)
    requires OnTrack(steps, k, log, lib.log, j.objects)
    modifies lib, heap, j
    ensures heap.live == old(heap.live) && lib.nextId == old(lib.nextId) + 1
    ensures ok ==> OnTrack(steps, k + 1, log, lib.log, j.objects)
    ensures !ok ==> lib.log == log + Chain(steps, 0).log && !Chain(steps, 0).ok
  {
    StepAt(lib.server, id, connstring, query, names, k);
    ChainAdvance(steps, k, lib.log, j.objects);
    ok := VisitDatabase(lib, heap, j, connstring, name, query);
  }
}
