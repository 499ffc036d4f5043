/**
The PostgreSQL client library as an arbitrary server behind a log: every
connection opened, command executed and connection finished is recorded, and
what the server answers is unconstrained.
*/
module Libpq {
  import opened CStrings
  import opened Params

  /** What `PQexecParams` gives back: an error, or rows of text values under named columns. */
  datatype QueryResult = Failed | Tuples(columns: seq<string>, rows: seq<seq<string>>)

  predicate CellsOk(cells: seq<string>) {
    cells == [] || (IsCString(cells[|cells| - 1]) && CellsOk(cells[..|cells| - 1]))
  }

  predicate RowsOk(rows: seq<seq<string>>, width: nat) {
    rows == [] ||
    (&& |rows[|rows| - 1]| == width && CellsOk(rows[|rows| - 1])
     && RowsOk(rows[..|rows| - 1], width))
  }

  /** What libpq guarantees of a result: a rectangle of C strings with at least one column. */
  predicate WellFormed(r: QueryResult) {
    r.Tuples? ==> |r.columns| > 0 && CellsOk(r.columns) && RowsOk(r.rows, |r.columns|)
  }

  lemma {:induction false} CellOk(cells: seq<string>, x: nat)
    requires CellsOk(cells) && x < |cells|
    ensures IsCString(cells[x])
  {
    if x < |cells| - 1 {
      CellOk(cells[..|cells| - 1], x);
    }
  }

  lemma {:induction false} RowOk(rows: seq<seq<string>>, width: nat, i: nat)
    requires RowsOk(rows, width) && i < |rows|
    ensures |rows[i]| == width && CellsOk(rows[i])
  {
    if i < |rows| - 1 {
      RowOk(rows[..|rows| - 1], width, i);
    }
  }

  /**
  The server's behaviour: whether the `id`-th connection attempt succeeds, and
  what a command with its parameters returns on that connection.
  */
  datatype Server = Server(
    accepts: (nat, string) -> bool,
    answers: (nat, string, string, seq<string>) -> QueryResult)
  {
    /** What libpq hands out: an answer that is no well-formed result counts as an error. */
    function Reply(id: nat, conninfo: string, sql: string, args: seq<string>): QueryResult {
      var r := answers(id, conninfo, sql, args);
      if WellFormed(r) then r else Failed
    }
  }

  datatype Event =
    | Open(id: nat, conninfo: string)
    | Exec(id: nat, sql: string, args: seq<string>)
    | Finish(id: nat)

  /** A `PGconn *`. */
  datatype PGconn = NoConn | Conn(id: nat, conninfo: string)

  // ---- Connection discipline ----

  /** Which connection is held; `Broken` once two are held or one is used or finished that is not held. */
  datatype Holder = Idle | Busy(id: nat) | Broken

  function Step(h: Holder, e: Event): Holder {
    match e
    case Open(id, _) => if h.Idle? then Busy(id) else Broken
    case Exec(id, _, _) => if h == Busy(id) then h else Broken
    case Finish(id) => if h == Busy(id) then Idle else Broken
  }

  function Run(h: Holder, log: seq<Event>): Holder {
    if log == [] then h else Step(Run(h, log[..|log| - 1]), log[|log| - 1])
  }

  function Opens(log: seq<Event>): nat {
    if log == [] then 0 else Opens(log[..|log| - 1]) + (if log[|log| - 1].Open? then 1 else 0)
  }

  function Finishes(log: seq<Event>): nat {
    if log == [] then 0 else Finishes(log[..|log| - 1]) + (if log[|log| - 1].Finish? then 1 else 0)
  }

  /** How often connection `id` is opened, and how often it is finished. */
  function OpensOf(log: seq<Event>, id: nat): nat {
    if log == [] then 0
    else OpensOf(log[..|log| - 1], id) + (if log[|log| - 1].Open? && log[|log| - 1].id == id then 1 else 0)
  }

  function FinishesOf(log: seq<Event>, id: nat): nat {
    if log == [] then 0
    else FinishesOf(log[..|log| - 1], id) + (if log[|log| - 1] == Finish(id) then 1 else 0)
  }

  /** Connections are numbered in the order in which they are opened. */
  predicate Numbered(log: seq<Event>) {
    log == [] ||
    (&& Numbered(log[..|log| - 1])
     && (log[|log| - 1].Open? ==> log[|log| - 1].id == Opens(log[..|log| - 1])))
  }

  lemma {:induction false} BrokenForever(log: seq<Event>, k: nat)
    requires k <= |log| && Run(Idle, log[..k]) == Broken
    ensures Run(Idle, log) == Broken
    decreases |log|
  {
    if k < |log| {
      assert log[..|log| - 1][..k] == log[..k];
      BrokenForever(log[..|log| - 1], k);
    } else {
      assert log[..k] == log;
    }
  }

  lemma {:induction false} HeldCount(log: seq<Event>)
    requires Run(Idle, log) != Broken
    ensures Opens(log) - Finishes(log) == if Run(Idle, log).Busy? then 1 else 0
    ensures forall id: nat :: OpensOf(log, id) - FinishesOf(log, id) == if Run(Idle, log) == Busy(id) then 1 else 0
  {
    if log != [] {
      HeldCount(log[..|log| - 1]);
    }
  }

  lemma {:induction false} OpenedOnce(log: seq<Event>, id: nat)
    requires Numbered(log)
    ensures OpensOf(log, id) == if id < Opens(log) then 1 else 0
  {
    if log != [] {
      OpenedOnce(log[..|log| - 1], id);
    }
  }

  ghost predicate AtMostOneHeld(log: seq<Event>) {
    forall k | 0 <= k <= |log| :: 0 <= Opens(log[..k]) - Finishes(log[..k]) <= 1
  }

  ghost predicate EachFinishedOnce(log: seq<Event>) {
    forall id: nat :: OpensOf(log, id) == FinishesOf(log, id) == if id < Opens(log) then 1 else 0
  }

  /**
  A run that ends idle never holds two connections, finishes every connection
  it opened exactly once and finishes no other.
  */
  lemma IdleMeansBalanced(log: seq<Event>)
    requires Numbered(log) && Run(Idle, log) == Idle
    ensures AtMostOneHeld(log) && EachFinishedOnce(log)
  {
    forall k | 0 <= k <= |log| ensures 0 <= Opens(log[..k]) - Finishes(log[..k]) <= 1 {
      if Run(Idle, log[..k]) == Broken { BrokenForever(log, k); }
      HeldCount(log[..k]);
    }
    HeldCount(log);
    forall id: nat ensures OpensOf(log, id) == if id < Opens(log) then 1 else 0 {
      OpenedOnce(log, id);
    }
  }

  // ---- The library ----

  /** The events of one connection attempt. */
  function ConnectLog(server: Server, id: nat, conninfo: string): seq<Event> {
    [Open(id, conninfo)] + (if server.accepts(id, conninfo) then [] else [Finish(id)])
  }

  function ConnectResult(server: Server, id: nat, conninfo: string): PGconn {
    if server.accepts(id, conninfo) then Conn(id, conninfo) else NoConn
  }

  /** One session: connect, run the command with its values bound and finish. */
  function QueryLog(server: Server, id: nat, conninfo: string, sql: string, args: seq<string>): seq<Event> {
    if server.accepts(id, conninfo) then [Open(id, conninfo), Exec(id, sql, args), Finish(id)]
    else [Open(id, conninfo), Finish(id)]
  }

  /** What comes back: an error as well when the connection is refused. */
  function QueryReply(server: Server, id: nat, conninfo: string, sql: string, args: seq<string>): QueryResult {
    if server.accepts(id, conninfo) then server.Reply(id, conninfo, sql, args) else Failed
  }

  class Client {
    const server: Server
    var nextId: nat
    var log: seq<Event>

    constructor (server: Server)
      ensures this.server == server && nextId == 0 && log == []
    {
      this.server := server;
      nextId, log := 0, [];
    }

    /** A new handle, to be finished whether or not the server accepted it. */
    method PQconnectdb(conninfo: string) returns (conn: PGconn)
      modifies this
      ensures conn == Conn(old(nextId), conninfo)
      ensures nextId == old(nextId) + 1 && log == old(log) + [Open(old(nextId), conninfo)]
    {
      conn := Conn(nextId, conninfo);
      log := log + [Open(nextId, conninfo)];
      nextId := nextId + 1;
    }

    /** `CONNECTION_OK == PQstatus(conn)`. */
    predicate PQstatusOk(conn: PGconn)
      requires conn.Conn?
    {
      server.accepts(conn.id, conn.conninfo)
    }

    /** Finishing NULL does nothing. */
    method PQfinish(conn: PGconn)
      modifies this`log
      ensures log == old(log) + (if conn.Conn? then [Finish(conn.id)] else [])
    {
      if conn.Conn? {
        log := log + [Finish(conn.id)];
      }
    }

    /** `pg_connect` of src/pg_connect.c: a working connection, or NULL with the handle released. */
    method PgConnect(conninfo: string) returns (conn: PGconn)
      modifies this
      ensures conn == ConnectResult(server, old(nextId), conninfo)
      ensures nextId == old(nextId) + 1 && log == old(log) + ConnectLog(server, old(nextId), conninfo)
    {
      conn := PQconnectdb(conninfo);
      if !PQstatusOk(conn) {
        PQfinish(conn);
        conn := NoConn;
      }
    }

    /**
    `pg_exec` of src/libzbxpgsql.c: $j is the j-th entry of the vector, and the
    vector is released afterwards.
    */
    method PgExec(heap: Heap, conn: PGconn, command: string, params: PGparams, ghost args: seq<string>)
      returns (res: QueryResult)
      requires conn.Conn?
      requires Holds(params, args) && Blocks(params) <= heap.live
      modifies this`log, heap, params
      ensures res == server.Reply(conn.id, conn.conninfo, command, args)
      ensures log == old(log) + [Exec(conn.id, command, args)]
      ensures heap.live == old(heap.live) - old(Blocks(params))
    {
      var nparams := ParamLen(params, args);
      var bound: seq<string> := [];
      for i := 0 to nparams
        invariant bound == args[..i]
      {
        assert args[..i + 1] == args[..i] + [args[i]];
        bound := bound + [params[i].text];
      }
      assert args[..|args|] == args;
      res := server.Reply(conn.id, conn.conninfo, command, bound);
      log := log + [Exec(conn.id, command, bound)];
      ParamFree(heap, params, args);
    }
  }
}
