/**
The item `pg.db.blks_ratio` of src/pg_database.c: the two quotient queries on
pg_stat_database, their text read back as a query, and what the answers mean.
*/
module HitRatios {
  import opened Agent
  import opened Buffers
  import opened Clauses
  import opened CStrings
  import opened Discovery
  import opened Libpq
  import opened Params
  import opened Queries
  import opened Ratios
  import opened Sequences

  // ---- The query language ----

  datatype Counter = Hit | Read

  /** A counter of each row, or its sum over the rows. */
  datatype Term = Each(counter: Counter) | Sum(counter: Counter)

  datatype Expr = One(term: Term) | Add(term: Term, rest: Expr)

  /** CASE WHEN den = 0 THEN 1 ELSE num / den END, of all rows or of those with the name in $1. */
  datatype Quotients = Quotients(num: Expr, den: Expr, named: bool)

  const TABLE := "pg_stat_database"
  const NAME_COLUMN := "datname"

  function CounterText(c: Counter): string {
    if c.Hit? then "blks_hit" else "blks_read"
  }

  function TermText(t: Term): string {
    match t
    case Each(c) => CounterText(c)
    case Sum(c) => "sum(" + (CounterText(c) + ")")
  }

  function ExprText(e: Expr): string {
    match e
    case One(t) => TermText(t)
    case Add(t, rest) => TermText(t) + (" + " + ExprText(rest))
  }

  function Filtering(named: bool): CharPtr {
    if named then Str(NAME_COLUMN) else Null
  }

  function QueryText(q: Quotients): string {
    FilteredSql(TABLE, ExprText(q.num), ExprText(q.den), Filtering(q.named))
  }

  // ---- Reading it back ----

  datatype Parsed<T> = Fails | Gives(value: T, rest: string)

  function ParseCounter(s: string): Parsed<Counter> {
    var hit, read := Skip(s, "blks_hit"), Skip(s, "blks_read");
    if hit.Just? then Gives(Hit, hit.value) else if read.Just? then Gives(Read, read.value) else Fails
  }

  function ParseTerm(s: string): Parsed<Term> {
    var sum := Skip(s, "sum(");
    if sum.Nothing? then
      var c := ParseCounter(s);
      if c.Fails? then Fails else Gives(Each(c.value), c.rest)
    else
      var c := ParseCounter(sum.value);
      if c.Fails? then Fails
      else
        var close := Skip(c.rest, ")");
        if close.Nothing? then Fails else Gives(Sum(c.value), close.value)
  }

  /** Terms with plus signs between them. */
  function ParseExpr(s: string): Parsed<Expr>
    decreases |s|
  {
    var t := ParseTerm(s);
    if t.Fails? then Fails
    else
      var plus := Skip(t.rest, " + ");
      if plus.Nothing? then Gives(One(t.value), t.rest)
      else if |plus.value| >= |s| then Fails
      else
        var rest := ParseExpr(plus.value);
        if rest.Fails? then Fails else Gives(Add(t.value, rest.value), rest.rest)
  }

  /** `literal`, then an expression. */
  function ParseAfter(s: string, literal: string): Parsed<Expr> {
    var rest := Skip(s, literal);
    if rest.Nothing? then Fails else ParseExpr(rest.value)
  }

  const CASE_WHEN := "SELECT CASE WHEN ("
  const THEN_ELSE := ") = 0 THEN 1 ELSE ("
  const OVER := ")::float / ("
  const FROM_TABLE := ") END FROM pg_stat_database"
  const WHERE_NAMED := " WHERE datname = $1"

  function ParseQuery(s: string): Maybe<Quotients> {
    var test := ParseAfter(s, CASE_WHEN);
    if test.Fails? then Nothing
    else
      var num := ParseAfter(test.rest, THEN_ELSE);
      if num.Fails? then Nothing
      else
        var den := ParseAfter(num.rest, OVER);
        if den.Fails? || den.value != test.value then Nothing
        else
          var table := Skip(den.rest, FROM_TABLE);
          if table.Nothing? then Nothing
          else if table.value == "" then Just(Quotients(num.value, den.value, false))
          else if table.value == WHERE_NAMED then Just(Quotients(num.value, den.value, true))
          else Nothing
  }

  lemma CounterReads(c: Counter, post: string)
    ensures ParseCounter(CounterText(c) + post) == Gives(c, post)
    ensures Skip(CounterText(c) + post, "sum(") == Nothing
  {
    var s := CounterText(c) + post;
    SkipReads(CounterText(c), post);
    assert s[0] == 'b' && s[5] == CounterText(c)[5];
    SkipFails(s, "sum(", 0);
    if c.Read? {
      SkipFails(s, "blks_hit", 5);
    }
  }

  lemma TermReads(t: Term, post: string)
    ensures ParseTerm(TermText(t) + post) == Gives(t, post)
    ensures 0 < |TermText(t)|
  {
    if t.Each? {
      CounterReads(t.counter, post);
    } else {
      var text, close := CounterText(t.counter), ")" + post;
      AppendAssociative("sum(", text + ")", post);
      AppendAssociative(text, ")", post);
      SkipReads("sum(", text + close);
      CounterReads(t.counter, close);
      SkipReads(")", post);
    }
  }

  lemma {:induction false} ExprReads(e: Expr, post: string)
    requires post != "" && post[0] == ')'
    ensures ParseExpr(ExprText(e) + post) == Gives(e, post)
    decreases e
  {
    match e
    case One(t) =>
      TermReads(t, post);
      SkipFails(post, " + ", 0);
    case Add(t, rest) =>
      var more := ExprText(rest) + post;
      AppendAssociative(TermText(t), " + " + ExprText(rest), post);
      AppendAssociative(" + ", ExprText(rest), post);
      TermReads(t, " + " + more);
      SkipReads(" + ", more);
      ExprReads(rest, post);
  }

  lemma AfterReads(literal: string, e: Expr, post: string)
    requires post != "" && post[0] == ')'
    ensures ParseAfter(literal + (ExprText(e) + post), literal) == Gives(e, post)
  {
    SkipReads(literal, ExprText(e) + post);
    ExprReads(e, post);
  }

  /** The nine pieces of the text, grouped from the right. */
  lemma NestRight(a: string, b: string, c: string, d: string, e: string, f: string, g: string, h: string, i: string)
    ensures a + b + c + d + e + f + g + h + i == a + (b + (c + (d + (e + (f + ((g + h) + i))))))
  {
    AppendAssociative(a + b + c + d + e + f, g, h);
    AppendAssociative(a + b + c + d + e + f, g + h, i);
    AppendAssociative(a + b + c + d + e, f, (g + h) + i);
    AppendAssociative(a + b + c + d, e, f + ((g + h) + i));
    AppendAssociative(a + b + c, d, e + (f + ((g + h) + i)));
    AppendAssociative(a + b, c, d + (e + (f + ((g + h) + i))));
    AppendAssociative(a, b, c + (d + (e + (f + ((g + h) + i)))));
  }

  /** The text that `pg_get_percentage` prints reads back as the query it was printed for. */
  lemma ParseInvertsPrinting(q: Quotients)
    ensures ParseQuery(QueryText(q)) == Just(q)
  {
    var num, den := ExprText(q.num), ExprText(q.den);
    var tail := if q.named then FilterSql(Str(NAME_COLUMN)) else "";
    NestRight(CASE_WHEN, den, THEN_ELSE, num, OVER, den, ") END FROM ", TABLE, tail);
    TableWords();
    var last := FROM_TABLE + tail;
    ReadPieces(q, tail, last, OVER + (den + last), THEN_ELSE + (num + (OVER + (den + last))));
  }

  lemma TableWords()
    ensures ") END FROM " + TABLE == FROM_TABLE && FilterSql(Str(NAME_COLUMN)) == WHERE_NAMED
  {
    assert " WHERE " + "datname" + " = $1" == " WHERE datname = $1";
  }

  lemma ReadPieces(q: Quotients, tail: string, last: string, over: string, then': string)
    requires tail == (if q.named then WHERE_NAMED else "") && last == FROM_TABLE + tail
    requires over == OVER + (ExprText(q.den) + last) && then' == THEN_ELSE + (ExprText(q.num) + over)
    ensures ParseQuery(CASE_WHEN + (ExprText(q.den) + then')) == Just(q)
  {
    assert last[0] == over[0] == then'[0] == ')';
    AfterReads(CASE_WHEN, q.den, then');
    AfterReads(THEN_ELSE, q.num, over);
    AfterReads(OVER, q.den, last);
    SkipReads(FROM_TABLE, tail);
  }

  // ---- Its answer ----

  /** A row of pg_stat_database. */
  datatype Database = Database(name: string, counters: Counters)

  function Value(c: Counter, counters: Counters): nat {
    if c.Hit? then counters.hit else counters.read
  }

  function Total(c: Counter, rows: seq<Database>): nat {
    if rows == [] then 0 else Total(c, rows[..|rows| - 1]) + Value(c, rows[|rows| - 1].counters)
  }

  predicate AllEach(e: Expr) {
    e.term.Each? && (e.Add? ==> AllEach(e.rest))
  }

  predicate AllSum(e: Expr) {
    e.term.Sum? && (e.Add? ==> AllSum(e.rest))
  }

  function EachValue(e: Expr, counters: Counters): nat {
    Value(e.term.counter, counters) + if e.Add? then EachValue(e.rest, counters) else 0
  }

  function SumValue(e: Expr, rows: seq<Database>): nat {
    Total(e.term.counter, rows) + if e.Add? then SumValue(e.rest, rows) else 0
  }

  function Chosen(rows: seq<Database>, q: Quotients, args: seq<string>): seq<Database> {
    if rows == [] then []
    else
      var last := rows[|rows| - 1];
      Chosen(rows[..|rows| - 1], q, args) + (if q.named ==> args == [last.name] then [last] else [])
  }

  function EachAnswer(rows: seq<Database>, q: Quotients): seq<Maybe<real>> {
    if rows == [] then []
    else
      var c := rows[|rows| - 1].counters;
      EachAnswer(rows[..|rows| - 1], q) + [Just(Quotient(EachValue(q.num, c), EachValue(q.den, c)))]
  }

  /**
  The server's answer, if it accepts the text and its parameters: one row for
  sums, NULL if there is nothing to sum, and one for each row otherwise.
  */
  function Answers(sql: string, args: seq<string>, rows: seq<Database>): Maybe<seq<Maybe<real>>> {
    var q := ParseQuery(sql);
    if q.Nothing? || |args| != (if q.value.named then 1 else 0) then Nothing
    else
      var chosen, num, den := Chosen(rows, q.value, args), q.value.num, q.value.den;
      if AllSum(num) && AllSum(den) then
        Just([if chosen == [] then Nothing else Just(Quotient(SumValue(num, chosen), SumValue(den, chosen)))])
      else if AllEach(num) && AllEach(den) then Just(EachAnswer(chosen, q.value))
      else Nothing
  }

  // ---- The item ----

  const SUM_HIT := "sum(blks_hit)"
  const SUM_BOTH := "sum(blks_hit) + sum(blks_read)"
  const HIT := "blks_hit"
  const BOTH := "blks_hit + blks_read"

  /** The text for all databases, or for a named one. */
  function RatioSql(named: bool): string {
    if named then FilteredSql(TABLE, HIT, BOTH, Str(NAME_COLUMN)) else FilteredSql(TABLE, SUM_HIT, SUM_BOTH, Null)
  }

  function RatioQuery(named: bool): Quotients {
    if named then Quotients(One(Each(Hit)), Add(Each(Hit), One(Each(Read))), true)
    else Quotients(One(Sum(Hit)), Add(Sum(Hit), One(Sum(Read))), false)
  }

  lemma RatioSqlReads(named: bool)
    ensures ParseQuery(RatioSql(named)) == Just(RatioQuery(named))
  {
    ExprTexts();
    ParseInvertsPrinting(RatioQuery(named));
  }

  lemma TermTexts()
    ensures TermText(Sum(Hit)) == SUM_HIT && TermText(Sum(Read)) == "sum(blks_read)"
    ensures TermText(Each(Hit)) == HIT && TermText(Each(Read)) == "blks_read"
  {
  }

  lemma TwoTerms(a: Term, b: Term)
    ensures ExprText(Add(a, One(b))) == TermText(a) + " + " + TermText(b)
  {
    AppendAssociative(TermText(a), " + ", TermText(b));
  }

  lemma ExprTexts()
    ensures ExprText(One(Sum(Hit))) == SUM_HIT && ExprText(Add(Sum(Hit), One(Sum(Read)))) == SUM_BOTH
    ensures ExprText(One(Each(Hit))) == HIT && ExprText(Add(Each(Hit), One(Each(Read)))) == BOTH
  {
    TermTexts();
    TwoTerms(Sum(Hit), Sum(Read));
    TwoTerms(Each(Hit), Each(Read));
    assert SUM_HIT + " + " + "sum(blks_read)" == SUM_BOTH && HIT + " + " + "blks_read" == BOTH;
  }

  lemma RatioSqlFits(named: bool)
    ensures |RatioSql(named)| < MAX_STRING_LEN
    ensures Clipped(RatioSql(named), MAX_STRING_LEN) == RatioSql(named)
  {
    assert |SUM_HIT| <= 40 && |SUM_BOTH| <= 40 && |HIT| <= 40 && |BOTH| <= 40 && |TABLE| <= 40 && |NAME_COLUMN| <= 40;
  }

  /** `PG_DB_BLKS_RATIO`: the sums without a database name, its own row with one. */
  method PgDbBlksRatio(lib: Client, heap: Heap, request: AgentRequest) returns (ok: bool, result: AgentResult)
    requires ConnParamsOk(request)
    modifies lib, heap
    ensures var name := GetRparam(request, PARAM_FIRST);
            var sql, args := RatioSql(!IsBlank(name)), Appended([], name);
            var id, conninfo := old(lib.nextId), ConnInfo(request);
            && lib.log == old(lib.log) + QueryLog(lib.server, id, conninfo, sql, args)
            && var value := Scalar(QueryReply(lib.server, id, conninfo, sql, args));
            && ok == value.Str? && result == ResultOf(AsDouble, value)
    // The bound name is released exactly when there is none or the query is executed.
    ensures heap.live == old(heap.live) <==>
              IsBlank(GetRparam(request, PARAM_FIRST)) || lib.server.accepts(old(lib.nextId), ConnInfo(request))
  {
    var dbname := GetRparam(request, PARAM_FIRST);
    RatioSqlFits(!IsBlank(dbname));
    if IsBlank(dbname) {
      SumPartsOk();
      ok, result := PgGetPercentage(lib, heap, request, TABLE, SUM_HIT, SUM_BOTH, Null, Null);
    } else {
      EachPartsOk();
      ok, result := PgGetPercentage(lib, heap, request, TABLE, HIT, BOTH, Str(NAME_COLUMN), dbname);
    }
  }

  lemma SumPartsOk()
    ensures PartsAreCStrings(TABLE, SUM_HIT, SUM_BOTH, Null)
  {
  }

  lemma EachPartsOk()
    ensures PartsAreCStrings(TABLE, HIT, BOTH, Str(NAME_COLUMN)) && !IsBlank(Str(NAME_COLUMN))
  {
  }

  // ---- What the answers mean ----

  function CountersOf(rows: seq<Database>): (cs: seq<Counters>)
    ensures |cs| == |rows|
  {
    if rows == [] then [] else CountersOf(rows[..|rows| - 1]) + [rows[|rows| - 1].counters]
  }

  lemma {:induction false} TotalsAreSums(rows: seq<Database>)
    ensures Total(Hit, rows) == SumHit(CountersOf(rows)) && Total(Read, rows) == SumRead(CountersOf(rows))
  {
    if rows != [] {
      TotalsAreSums(rows[..|rows| - 1]);
      assert CountersOf(rows)[..|rows| - 1] == CountersOf(rows[..|rows| - 1]);
    }
  }

  lemma {:induction false} ChosenAll(rows: seq<Database>, q: Quotients, args: seq<string>)
    requires !q.named
    ensures Chosen(rows, q, args) == rows
  {
    if rows != [] {
      ChosenAll(rows[..|rows| - 1], q, args);
      assert rows == rows[..|rows| - 1] + [rows[|rows| - 1]];
    }
  }

  lemma {:induction false} ChosenNamed(rows: seq<Database>, q: Quotients, name: string, row: Database)
    requires q.named
    ensures row in Chosen(rows, q, [name]) <==> row in rows && row.name == name
  {
    if rows != [] {
      ChosenNamed(rows[..|rows| - 1], q, name, row);
      assert rows == rows[..|rows| - 1] + [rows[|rows| - 1]];
      assert [name] == [rows[|rows| - 1].name] <==> name == rows[|rows| - 1].name;
    }
  }

  lemma {:induction false} EachIsRatio(rows: seq<Database>, row: Database)
    requires row in rows
    ensures Just(RowRatio(row.counters)) in EachAnswer(rows, RatioQuery(true))
  {
    var last := rows[|rows| - 1];
    var c := last.counters;
    assert EachValue(One(Each(Read)), c) == c.read;
    assert EachValue(RatioQuery(true).den, c) == c.hit + c.read;
    if row != last {
      assert rows == rows[..|rows| - 1] + [last];
      EachIsRatio(rows[..|rows| - 1], row);
    }
  }

  lemma NamedQueryIsEach()
    ensures var q := RatioQuery(true);
            q.named && AllEach(q.num) && AllEach(q.den) && !AllSum(q.num)
  {
    assert AllEach(One(Each(Read)));
  }

  lemma EachesAnswer(sql: string, q: Quotients, name: string, rows: seq<Database>)
    requires ParseQuery(sql) == Just(q) && q.named && AllEach(q.num) && AllEach(q.den) && !AllSum(q.num)
    ensures Answers(sql, [name], rows) == Just(EachAnswer(Chosen(rows, q, [name]), q))
  {
  }

  /** The query for a named database answers with its hit ratio. */
  lemma NamedAnswerIsRatio(rows: seq<Database>, row: Database)
    requires row in rows
    ensures var answer := Answers(RatioSql(true), [row.name], rows);
            answer.Just? && Just(RowRatio(row.counters)) in answer.value
  {
    RatioSqlReads(true);
    NamedQueryIsEach();
    EachesAnswer(RatioSql(true), RatioQuery(true), row.name, rows);
    ChosenNamed(rows, RatioQuery(true), row.name, row);
    EachIsRatio(Chosen(rows, RatioQuery(true), [row.name]), row);
  }

  lemma {:induction false} ChosenNone(rows: seq<Database>, q: Quotients, name: string)
    requires q.named && forall row | row in rows :: row.name != name
    ensures Chosen(rows, q, [name]) == []
  {
    if rows != [] {
      var last := rows[|rows| - 1];
      assert rows == rows[..|rows| - 1] + [last];
      ChosenNone(rows[..|rows| - 1], q, name);
      assert [name][0] != [last.name][0];
    }
  }

  lemma {:induction false} ChosenOne(rows: seq<Database>, q: Quotients, row: Database)
    requires q.named && row in rows
    requires forall i, j | 0 <= i < j < |rows| :: rows[i].name != rows[j].name
    ensures Chosen(rows, q, [row.name]) == [row]
  {
    var init, last := rows[..|rows| - 1], rows[|rows| - 1];
    assert rows == init + [last];
    if row == last {
      ChosenNone(init, q, row.name);
    } else {
      ChosenOne(init, q, row);
      var i :| 0 <= i < |rows| && rows[i] == row;
      assert [row.name][0] != [last.name][0];
    }
  }

  /** With distinct names it answers with that ratio and nothing else. */
  lemma NamedAnswerIsOnlyRatio(rows: seq<Database>, row: Database)
    requires row in rows && forall i, j | 0 <= i < j < |rows| :: rows[i].name != rows[j].name
    ensures Answers(RatioSql(true), [row.name], rows) == Just([Just(RowRatio(row.counters))])
  {
    RatioSqlReads(true);
    NamedQueryIsEach();
    EachesAnswer(RatioSql(true), RatioQuery(true), row.name, rows);
    ChosenOne(rows, RatioQuery(true), row);
    OneAnswer(row);
  }

  lemma OneAnswer(row: Database)
    ensures EachAnswer([row], RatioQuery(true)) == [Just(RowRatio(row.counters))]
  {
    var c := row.counters;
    assert EachValue(One(Each(Read)), c) == c.read && EachValue(RatioQuery(true).den, c) == c.hit + c.read;
    assert [row][..0] == [];
    assert EachAnswer([], RatioQuery(true)) == [];
  }

  /** An expression has a term that is a sum, or one that is not. */
  predicate HasSum(e: Expr) {
    e.term.Sum? || (e.Add? && HasSum(e.rest))
  }

  predicate HasEach(e: Expr) {
    e.term.Each? || (e.Add? && HasEach(e.rest))
  }

  lemma {:induction false} AllOrHas(e: Expr)
    ensures AllEach(e) <==> !HasSum(e)
    ensures AllSum(e) <==> !HasEach(e)
    decreases e
  {
    if e.Add? { AllOrHas(e.rest); }
  }

  /** Sums and columns of single rows do not go together. */
  lemma MixedIsRefused(sql: string, q: Quotients, args: seq<string>, rows: seq<Database>)
    requires ParseQuery(sql) == Just(q)
    requires (HasSum(q.num) || HasSum(q.den)) && (HasEach(q.num) || HasEach(q.den))
    ensures Answers(sql, args, rows) == Nothing
  {
    AllOrHas(q.num);
    AllOrHas(q.den);
  }

  /** Nor does a text without a placeholder take a value, or one with a placeholder none or two. */
  lemma ArgumentsMustFit(sql: string, q: Quotients, args: seq<string>, rows: seq<Database>)
    requires ParseQuery(sql) == Just(q) && |args| != if q.named then 1 else 0
    ensures Answers(sql, args, rows) == Nothing
  {
  }

  lemma SumsAnswer(sql: string, q: Quotients, rows: seq<Database>)
    requires ParseQuery(sql) == Just(q) && !q.named && AllSum(q.num) && AllSum(q.den)
    ensures Answers(sql, [], rows) ==
            Just([if rows == [] then Nothing else Just(Quotient(SumValue(q.num, rows), SumValue(q.den, rows)))])
  {
    ChosenAll(rows, q, []);
  }

  lemma RatioSums(rows: seq<Database>)
    ensures var q := RatioQuery(false);
            && !q.named && AllSum(q.num) && AllSum(q.den)
            && Quotient(SumValue(q.num, rows), SumValue(q.den, rows)) == TotalRatio(CountersOf(rows))
  {
    var last := One(Sum(Read));
    TotalsAreSums(rows);
    assert AllSum(last) && SumValue(last, rows) == Total(Read, rows);
  }

  /** The query for all databases answers with the quotient of the sums, NULL if there is no database. */
  lemma TotalAnswerIsRatio(rows: seq<Database>)
    ensures Answers(RatioSql(false), [], rows) ==
            Just([if rows == [] then Nothing else Just(TotalRatio(CountersOf(rows)))])
  {
    RatioSqlReads(false);
    RatioSums(rows);
    SumsAnswer(RatioSql(false), RatioQuery(false), rows);
  }

  /**
  The answer for all databases is a ratio, and lies between the smallest and the
  largest of the answers for the single databases.
  */
  lemma TotalIsBetweenNamedAnswers(rows: seq<Database>, lo: real, hi: real)
    requires rows != []
    requires forall row, r | row in rows && r in Answers(RatioSql(true), [row.name], rows).Or([]) ::
               r.Just? && lo <= r.value <= hi
    ensures exists total: real ::
      && Answers(RatioSql(false), [], rows) == Just([Just(total)])
      && lo <= total <= hi && 0.0 <= total <= 1.0
  {
    var cs := CountersOf(rows);
    TotalAnswerIsRatio(rows);
    forall i | 0 <= i < |cs| ensures lo <= RowRatio(cs[i]) <= hi {
      CountersAt(rows, i);
      NamedAnswerIsRatio(rows, rows[i]);
      assert rows[i] in rows;
    }
    TotalIsBetweenRows(cs, lo, hi);
    TotalIsRatio(cs);
  }

  lemma {:induction false} CountersAt(rows: seq<Database>, i: nat)
    requires i < |rows|
    ensures CountersOf(rows)[i] == rows[i].counters
  {
    if i < |rows| - 1 {
      CountersAt(rows[..|rows| - 1], i);
    }
  }
}
