/**
Running one query for an agent request: the scalar and discovery wrappers of
src/libzbxpgsql.c and src/pg_discovery.c, and the user query item of
src/pg_query.c.
*/
module Queries {
  import opened Agent
  import opened Buffers
  import opened CStrings
  import Decimals
  import opened Discovery
  import opened Libpq
  import opened Numerals
  import opened Params
  import opened QueryIndex
  import opened StableSort

  /** The value set on the agent result. */
  datatype AgentResult =
    | NoResult
    | StrResult(text: string)
    | UintResult(n: nat)
    | DblResult(value: real)
    | SpecialDbl(text: string)
    | OutOfRange

  datatype ResultType = AsString | AsInteger | AsDouble

  // ---- One session ----

  /**
  Connect, execute, finish. The vector is released only by `pg_exec`, so a
  refused connection leaves it allocated.
  */
  method RunQuery(lib: Client, heap: Heap, request: AgentRequest, query: string,
                  params: PGparams, ghost args: seq<string>)
    returns (res: QueryResult)
    requires ConnParamsOk(request)
    requires Holds(params, args) && Blocks(params) <= heap.live
    modifies lib, heap, params
    ensures lib.nextId == old(lib.nextId) + 1
    ensures lib.log == old(lib.log) + QueryLog(lib.server, old(lib.nextId), ConnInfo(request), query, args)
    ensures res == QueryReply(lib.server, old(lib.nextId), ConnInfo(request), query, args)
    ensures heap.live == if lib.server.accepts(old(lib.nextId), ConnInfo(request))
                         then old(heap.live) - old(Blocks(params)) else old(heap.live)
  {
    ghost var log, id, conninfo := lib.log, lib.nextId, ConnInfo(request);
    var conn := PgConnectRequest(lib, request);
    if conn.NoConn? {
      assert ConnectLog(lib.server, id, conninfo) == [Open(id, conninfo), Finish(id)];
      return Failed;
    }
    res := lib.PgExec(heap, conn, query, params, args);
    lib.PQfinish(conn);
    assert lib.log == log + [Open(id, conninfo)] + [Exec(id, query, args)] + [Finish(id)];
  }

  /** The first column of the first row, cut to the local buffer. */
  function Scalar(res: QueryResult): CharPtr {
    if res.Tuples? && |res.rows| > 0 then Str(Clipped(Cell(res.rows[0], 0), MAX_STRING_LEN)) else Null
  }

  /** The value is the first cell of the first row, cut to 2047 bytes. */
  lemma ScalarMeaning(res: QueryResult)
    requires WellFormed(res)
    ensures Scalar(res).Null? <==> res.Failed? || res.rows == []
    ensures res.Tuples? && res.rows != [] ==>
              && |res.rows[0]| > 0
              && var cell := res.rows[0][0];
                 Scalar(res) == Str(if |cell| < 2048 then cell else cell[..2047])
  {
    if res.Tuples? && res.rows != [] {
      RowOk(res.rows, |res.columns|, 0);
    }
  }

  /** `pg_get_result`: set the scalar as the requested type. */
  function ResultOf(kind: ResultType, value: CharPtr): AgentResult {
    if value.Null? then NoResult
    else match kind
      case AsString => StrResult(value.text)
      case AsDouble => if IsSpecial(value.text) then SpecialDbl(value.text) else DblResult(Strtod(value.text))
      case AsInteger =>
        if UsesStrtod(value.text) && !(-1.0 < Strtod(value.text) < TWO64 as real) then OutOfRange
        else UintResult(ToUint64(value.text))
  }

  lemma DoubleResult(text: string, v: real)
    requires !IsSpecial(text) && Strtod(text) == v
    ensures ResultOf(AsDouble, Str(text)) == DblResult(v)
  {
  }

  lemma IntegerResult(text: string)
    requires UsesStrtod(text) ==> -1.0 < Strtod(text) < TWO64 as real
    ensures ResultOf(AsInteger, Str(text)) == UintResult(ToUint64(text))
  {
  }

  /** For every number a server prints: the text, the number, and its integer part unless an exponent is lost. */
  lemma ResultMeaning(num: Numeral)
    requires num.Valid()
    ensures ResultOf(AsString, Str(num.Print())) == StrResult(num.Print())
    ensures ResultOf(AsDouble, Str(num.Print())) == DblResult(num.Denotes())
    ensures ResultOf(AsDouble, Str("-" + num.Print())) == DblResult(-num.Denotes())
    ensures num.Denotes() < TWO64 as real ==>
              var result := ResultOf(AsInteger, Str(num.Print()));
              result.UintResult? && (result.n == num.Denotes().Floor <==> !LosesExponent(num))
  {
    PrintedIsNotSpecial(num);
    DoubleLaw(num);
    DoubleResult(num.Print(), num.Denotes());
    NegativeDoubleLaw(num);
    DoubleResult("-" + num.Print(), -num.Denotes());
    if num.Denotes() < TWO64 as real {
      ConversionLaw(num);
      IntegerResult(num.Print());
    }
  }

  /** After a minus sign: 2^64 less the number before the point or exponent. */
  lemma NegativeResultMeaning(num: Numeral)
    requires num.Valid()
    ensures var n := Decimals.Value(num.whole);
            ResultOf(AsInteger, Str("-" + num.Print())) ==
              UintResult(if n >= TWO64 then TWO64 - 1 else if n == 0 then 0 else TWO64 - n)
  {
    NegativeLaw(num);
    IntegerResult("-" + num.Print());
  }

  /** `pg_scalar`: the text in the caller's buffer, or NULL on failure. */
  method PgScalar(lib: Client, heap: Heap, request: AgentRequest, query: string,
                  params: PGparams, ghost args: seq<string>)
    returns (value: CharPtr)
    requires ConnParamsOk(request)
    requires Holds(params, args) && Blocks(params) <= heap.live
    modifies lib, heap, params
    ensures lib.nextId == old(lib.nextId) + 1
    ensures lib.log == old(lib.log) + QueryLog(lib.server, old(lib.nextId), ConnInfo(request), query, args)
    ensures value == Scalar(QueryReply(lib.server, old(lib.nextId), ConnInfo(request), query, args))
    ensures heap.live == if lib.server.accepts(old(lib.nextId), ConnInfo(request))
                         then old(heap.live) - old(Blocks(params)) else old(heap.live)
  {
    var res := RunQuery(lib, heap, request, query, params, args);
    if res.Failed? || |res.rows| == 0 {
      return Null;
    }
    value := Str(Clipped(Cell(res.rows[0], 0), MAX_STRING_LEN));
  }

  /** `pg_get_result`: `pg_scalar` and the switch on the type. */
  method PgGetResult(lib: Client, heap: Heap, request: AgentRequest, kind: ResultType, query: string,
                     params: PGparams, ghost args: seq<string>)
    returns (ok: bool, result: AgentResult)
    requires ConnParamsOk(request)
    requires Holds(params, args) && Blocks(params) <= heap.live
    modifies lib, heap, params
    ensures lib.nextId == old(lib.nextId) + 1
    ensures lib.log == old(lib.log) + QueryLog(lib.server, old(lib.nextId), ConnInfo(request), query, args)
    ensures var value := Scalar(QueryReply(lib.server, old(lib.nextId), ConnInfo(request), query, args));
            ok == value.Str? && result == ResultOf(kind, value)
    ensures heap.live == if lib.server.accepts(old(lib.nextId), ConnInfo(request))
                         then old(heap.live) - old(Blocks(params)) else old(heap.live)
  {
    var value := PgScalar(lib, heap, request, query, params, args);
    if value.Null? {
      return false, NoResult;
    }
    ok := true;
    match kind
    case AsString =>
      result := StrResult(value.text);
    case AsInteger =>
      if 1 < |value.text| && value.text[1] == '.' {
        var dbl := Strtod(value.text);
        if -1.0 < dbl < TWO64 as real {
          result := UintResult(if dbl < 0.0 then 0 else dbl.Floor);
        } else {
          result := OutOfRange;
        }
      } else {
        result := UintResult(Strtoull(value.text));
      }
    case AsDouble =>
      result := if IsSpecial(value.text) then SpecialDbl(value.text) else DblResult(Strtod(value.text));
  }

  /** `pg_get_discovery`: the objects of one query's rows. */
  method PgGetDiscovery(lib: Client, heap: Heap, request: AgentRequest, query: string,
                        params: PGparams, ghost args: seq<string>)
    returns (ok: bool, data: seq<JsonObject>)
    requires ConnParamsOk(request)
    requires Holds(params, args) && Blocks(params) <= heap.live
    modifies lib, heap, params
    ensures lib.nextId == old(lib.nextId) + 1
    ensures lib.log == old(lib.log) + QueryLog(lib.server, old(lib.nextId), ConnInfo(request), query, args)
    ensures var res := QueryReply(lib.server, old(lib.nextId), ConnInfo(request), query, args);
            ok == res.Tuples? && data == AllObjects(res)
    ensures heap.live == if lib.server.accepts(old(lib.nextId), ConnInfo(request))
                         then old(heap.live) - old(Blocks(params)) else old(heap.live)
  {
    var res := RunQuery(lib, heap, request, query, params, args);
    if res.Failed? {
      return false, [];
    }
    var j := new Json();
    EmitRows(j, res);
    assert [] + AllObjects(res) == AllObjects(res);
    return true, j.objects;
  }

  // ---- User queries ----

  datatype Item = Typed(kind: ResultType) | Listing | Unsupported

  /** The part of the key after `pg.query.` selects the result, by prefix. */
  function ItemOf(key: string): Item
    requires |key| >= 9
  {
    var field := key[9..];
    if StrncmpEqual(field, "string", 5) then Typed(AsString)
    else if StrncmpEqual(field, "integer", 7) then Typed(AsInteger)
    else if StrncmpEqual(field, "double", 6) then Typed(AsDouble)
    else if StrncmpEqual(field, "discovery", 9) then Listing
    else Unsupported
  }

  predicate StartsWith(s: string, prefix: string) {
    |prefix| <= |s| && s[..|prefix|] == prefix
  }

  /** A count no larger than the literal makes the comparison a prefix test. */
  lemma StrncmpIsPrefixTest(s: string, literal: string, n: nat)
    requires n <= |literal|
    ensures StrncmpEqual(s, literal, n) <==> StartsWith(s, literal[..n])
  {
    StrncmpMeaning(s, literal, n);
  }

  lemma PrefixesDiffer(s: string, p: string, q: string, i: nat)
    requires i < |p| && i < |q| && p[i] != q[i]
    ensures !(StartsWith(s, p) && StartsWith(s, q))
  {
    if StartsWith(s, p) {
      assert s[i] == s[..|p|][i] == p[i];
      if |q| <= |s| {
        assert s[..|q|][i] == s[i];
      }
    }
  }

  /** Which keys select which kind of result: by the registered names, of `string` only the first five letters. */
  lemma ItemMeaning(key: string)
    requires |key| >= 9
    ensures var field, item := key[9..], ItemOf(key);
            && (item == Typed(AsString) <==> StartsWith(field, "strin"))
            && (item == Typed(AsInteger) <==> StartsWith(field, "integer"))
            && (item == Typed(AsDouble) <==> StartsWith(field, "double"))
            && (item == Listing <==> StartsWith(field, "discovery"))
  {
    var field := key[9..];
    var s, i, d, l := "strin", "integer", "double", "discovery";
    StrncmpIsPrefixTest(field, "string", 5);
    StrncmpIsPrefixTest(field, i, 7);
    StrncmpIsPrefixTest(field, d, 6);
    StrncmpIsPrefixTest(field, l, 9);
    assert "string"[..5] == s && i[..7] == i && d[..6] == d && l[..9] == l;
    PrefixesDiffer(field, s, i, 0);
    PrefixesDiffer(field, s, d, 0);
    PrefixesDiffer(field, s, l, 0);
    PrefixesDiffer(field, i, d, 0);
    PrefixesDiffer(field, i, l, 0);
    PrefixesDiffer(field, d, l, 1);
  }

  /** The four registered keys select the four kinds of result. */
  lemma RegisteredItems()
    ensures ItemOf("pg.query.string") == Typed(AsString)
    ensures ItemOf("pg.query.integer") == Typed(AsInteger)
    ensures ItemOf("pg.query.double") == Typed(AsDouble)
    ensures ItemOf("pg.query.discovery") == Listing
  {
    assert "pg.query.string"[9..] == "string" && "pg.query.integer"[9..] == "integer";
    assert "pg.query.double"[9..] == "double" && "pg.query.discovery"[9..] == "discovery";
    assert "string"[..5] == "strin" && "integer"[..7] == "integer";
    assert "double"[..6] == "double" && "discovery"[..9] == "discovery";
    ItemMeaning("pg.query.string");
    ItemMeaning("pg.query.integer");
    ItemMeaning("pg.query.double");
    ItemMeaning("pg.query.discovery");
  }

  /** The configured query under this name, or the text itself. */
  function Resolved(config: seq<Pair>, key: string): string {
    var found := Assoc(config, key);
    if found.Str? then found.text else key
  }

  /** The parameters after the query. */
  function UserParams(request: AgentRequest): seq<CharPtr> {
    if |request.params| < 3 then [] else request.params[3..]
  }

  /** The values bound are the non-empty ones of the parameters 3, 4 and so on, in that order. */
  lemma UserParamsByPosition(request: AgentRequest)
    ensures var ps, args := request.params, UserParams(request);
            |args| == (if |ps| < 3 then 0 else |ps| - 3) && forall i | 0 <= i < |args| :: args[i] == ps[i + 3]
    ensures var args := UserParams(request);
            && |NonEmpty(args)| == |Kept(args, |args|)|
            && forall k | 0 <= k < |args| && args[k].Str? && args[k].text != "" ::
                 |Kept(args, k)| < |NonEmpty(args)| && NonEmpty(args)[|Kept(args, k)|] == args[k].text
  {
    NonEmptyByPosition(UserParams(request));
  }

  /** `PG_QUERY`'s answer. */
  datatype Answer = NoAnswer | Single(result: AgentResult) | Objects(data: seq<JsonObject>)

  function AnswerOf(item: Item, res: QueryResult): Answer {
    match item
    case Unsupported => NoAnswer
    case Typed(kind) => if Scalar(res).Null? then NoAnswer else Single(ResultOf(kind, Scalar(res)))
    case Listing => if res.Failed? then NoAnswer else Objects(AllObjects(res))
  }

  /** What each item answers: nothing on failure, the first cell as its type, or an object for each row. */
  lemma AnswerMeaning(item: Item, res: QueryResult)
    requires WellFormed(res)
    ensures res.Failed? ==> AnswerOf(item, res) == NoAnswer
    ensures res.Tuples? && res.rows == [] && item.Typed? ==> AnswerOf(item, res) == NoAnswer
    ensures res.Tuples? && res.rows != [] && item.Typed? ==>
              && |res.rows[0]| > 0
              && var cell := res.rows[0][0];
                 AnswerOf(item, res) == Single(ResultOf(item.kind, Str(if |cell| < 2048 then cell else cell[..2047])))
    ensures res.Tuples? && item.Listing? ==>
              && AnswerOf(item, res) == Objects(AllObjects(res))
              && forall i, x | 0 <= i < |res.rows| && 0 <= x < |res.columns| ::
                   && |AllObjects(res)| == |res.rows| && |AllObjects(res)[i]| == |res.columns| == |res.rows[i]|
                   && AllObjects(res)[i][x] == Field(MacroOf(res.columns[x]), res.rows[i][x])
  {
    ScalarMeaning(res);
    if res.Tuples? && item.Listing? {
      forall i, x | 0 <= i < |res.rows| && 0 <= x < |res.columns|
        ensures |AllObjects(res)| == |res.rows| && |AllObjects(res)[i]| == |res.columns| == |res.rows[i]|
        ensures AllObjects(res)[i][x] == Field(MacroOf(res.columns[x]), res.rows[i][x])
      {
        RowOk(res.rows, |res.columns|, i);
        EveryCellKeptOnce(res, i, x);
      }
    }
  }

  /**
  Run the query named or given by the third parameter, with every later
  non-empty parameter bound in order. `sql` is the text that is run.
  */
  method PgQuery(index: NamedQueries, lib: Client, heap: Heap, request: AgentRequest)
    returns (answer: Answer, ghost sql: string)
    requires index.Loaded() && ConnParamsOk(request) && |request.key| >= 9
    modifies lib, heap
    ensures var key := GetRparam(request, PARAM_FIRST);
            var item := ItemOf(request.key);
            var args := NonEmpty(UserParams(request));
            var id, conninfo := old(lib.nextId), ConnInfo(request);
            if IsBlank(key) || item.Unsupported? then
              answer == NoAnswer && lib.log == old(lib.log)
            else
              && (Pair(key.text, sql) in index.config || (Assoc(index.config, key.text) == Null && sql == key.text))
              && (DistinctKeys(index.config) ==> sql == Resolved(index.config, key.text))
              && lib.log == old(lib.log) + QueryLog(lib.server, id, conninfo, sql, args)
              && answer == AnswerOf(item, QueryReply(lib.server, id, conninfo, sql, args))
    // The bound copies are released exactly when the command is executed.
    ensures heap.live == old(heap.live) <==>
              || IsBlank(GetRparam(request, PARAM_FIRST))
              || NonEmpty(UserParams(request)) == []
              || (!ItemOf(request.key).Unsupported? && lib.server.accepts(old(lib.nextId), ConnInfo(request)))
  {
    answer, sql := NoAnswer, "";
    var queryKey := GetRparam(request, PARAM_FIRST);
    if IsBlank(queryKey) {
      return;
    }
    ghost var probes: nat, peak: int;
    var query: CharPtr;
    query, probes, peak := index.GetQueryByName(queryKey.text);
    if query == Null {
      query := queryKey;
    }
    sql := query.text;
    var params := ParamsFrom(heap, UserParams(request));
    ghost var args := NonEmpty(UserParams(request));
    match ItemOf(request.key)
    case Typed(kind) =>
      var ok, result := PgGetResult(lib, heap, request, kind, query.text, params, args);
      answer := if ok then Single(result) else NoAnswer;
    case Listing =>
      var ok, data := PgGetDiscovery(lib, heap, request, query.text, params, args);
      answer := if ok then Objects(data) else NoAnswer;
    case Unsupported =>
  }

  /** A server that refuses every connection. */
  function Unreachable(): Server {
    Server((id: nat, conninfo: string) => false, (id: nat, conninfo: string, sql: string, args: seq<string>) => Failed)
  }

  function OneParameterRequest(): AgentRequest {
    AgentRequest("pg.query.string", [Null, Null, Str("SELECT $1"), Str("x")])
  }

  lemma OneParameter()
    ensures var request := OneParameterRequest();
            && ConnParamsOk(request) && |request.key| >= 9 && ItemOf(request.key) == Typed(AsString)
            && !IsBlank(GetRparam(request, PARAM_FIRST)) && NonEmpty(UserParams(request)) != []
  {
    RegisteredItems();
    var request := OneParameterRequest();
    assert UserParams(request)[0] == Str("x");
    NonEmptyIndex(UserParams(request), 0);
  }

  /** A query with one parameter, sent to it: the copy of the parameter stays allocated. */
  method RefusedQueryKeepsCopy(heap: Heap) returns (answer: Answer)
    modifies heap
    ensures answer == NoAnswer && heap.live != old(heap.live)
  {
    var index := new NamedQueries();
    var lib := new Client(Unreachable());
    var request := OneParameterRequest();
    ghost var sql: string;
    OneParameter();
    answer, sql := PgQuery(index, lib, heap, request);
  }
}
