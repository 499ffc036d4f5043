/**
The filter compiler of src/pg_backends.c: up to four optional request
parameters become clause text with numbered placeholders and the vector of
values bound to them.
*/
module ActivityFilters {
  import opened Agent
  import opened Buffers
  import opened Clauses
  import opened CStrings
  import opened Decimals
  import opened Params
  import opened Sequences

  const MAX_CLAUSE_LEN := 4096

  // ---- What the filters ask for ----

  /** The `i`-th filter: database, user, client, waiting. */
  function Filter(request: AgentRequest, i: nat): CharPtr {
    GetRparam(request, PARAM_FIRST + i)
  }

  predicate IsOid(v: string) {
    v != "" && AllDigits(v)
  }

  /** A non-empty filter holds on a row; NULL columns satisfy none. */
  predicate FilterHolds(i: nat, v: string, row: Row, inet: Inet) {
    if i == 0 then (if IsOid(v) then row.datid.Just? && row.datid.value == Value(v) else row.datname == Str(v))
    else if i == 1 then
      (if IsOid(v) then row.usesysid.Just? && row.usesysid.value == Value(v) else row.usename == Str(v))
    else if i == 2 then (if inet(v).Just? then row.clientAddr == inet(v) else row.clientHostname == Str(v))
    else row.waiting == Just(v == "true")
  }

  /** Every non-empty filter from the `i`-th on holds on the row. */
  predicate Matches(request: AgentRequest, i: nat, row: Row, inet: Inet)
    decreases 4 - i
  {
    i >= 4 ||
    (&& (IsBlank(Filter(request, i)) || FilterHolds(i, Filter(request, i).text, row, inet))
     && Matches(request, i + 1, row, inet))
  }

  /** A non-empty filter is contradicted by a row: its column is not NULL and differs. */
  predicate FilterFails(i: nat, v: string, row: Row, inet: Inet) {
    if i == 0 then
      (if IsOid(v) then row.datid.Just? && row.datid.value != Value(v) else row.datname.Str? && row.datname.text != v)
    else if i == 1 then
      (if IsOid(v) then row.usesysid.Just? && row.usesysid.value != Value(v)
       else row.usename.Str? && row.usename.text != v)
    else if i == 2 then
      (if inet(v).Just? then row.clientAddr.Just? && row.clientAddr != inet(v)
       else row.clientHostname.Str? && row.clientHostname.text != v)
    else row.waiting.Just? && row.waiting.value != (v == "true")
  }

  /** Some non-empty filter from the `i`-th on is contradicted. */
  predicate Contradicts(request: AgentRequest, i: nat, row: Row, inet: Inet)
    decreases 4 - i
  {
    i < 4 &&
    (|| (!IsBlank(Filter(request, i)) && FilterFails(i, Filter(request, i).text, row, inet))
     || Contradicts(request, i + 1, row, inet))
  }

  /** The waiting filter, if any, is `true` or `false`. */
  predicate Accepted(request: AgentRequest) {
    IsBlank(Filter(request, 3)) || Filter(request, 3).text == "true" || Filter(request, 3).text == "false"
  }

  /** A database or user given as a number fits the 32 bits of an oid. */
  predicate OidFits(i: nat, v: string) {
    i < 2 && IsOid(v) ==> Value(v) < OID_LIMIT
  }

  /** The server has the column a filter needs: host names from 9.1 on, `waiting` from 8.2 until 9.6. */
  predicate ColumnServed(i: nat, v: string, version: int, inet: Inet) {
    (i == 2 && inet(v).Nothing? ==> 90100 <= version) && (i == 3 ==> 80200 <= version < 90600)
  }

  /** A server of this version can compare with every filter from the `i`-th on. */
  predicate Served(request: AgentRequest, i: nat, version: int, inet: Inet)
    decreases 4 - i
  {
    i >= 4 ||
    (&& (var f := Filter(request, i);
         IsBlank(f) || (OidFits(i, f.text) && ColumnServed(i, f.text, version, inet)))
     && Served(request, i + 1, version, inet))
  }

  // ---- The atoms and the bound values ----

  /** The atom for a non-empty filter, with `n` values bound before it. */
  function AtomFor(i: nat, v: string, connector: Connector, n: nat, inet: Inet): Atom {
    if i == 0 then Atom(connector, if IsOid(v) then DatId else DatName, Param(n + 1))
    else if i == 1 then Atom(connector, if IsOid(v) then UseSysId else UseName, Param(n + 1))
    else if i == 2 then
      if inet(v).Just? then Atom(connector, ClientAddr, InetParam(n + 1))
      else Atom(connector, ClientHostname, Param(n + 1))
    else Atom(connector, Waiting, Truth(v == "true"))
  }

  function Compiled(request: AgentRequest, i: nat, connector: Connector, n: nat, inet: Inet): Atoms
    decreases 4 - i
  {
    if i >= 4 then NoAtoms
    else if IsBlank(Filter(request, i)) then Compiled(request, i + 1, connector, n, inet)
    else
      More(AtomFor(i, Filter(request, i).text, connector, n, inet),
           Compiled(request, i + 1, And, if i < 3 then n + 1 else n, inet))
  }

  /** The values of the non-empty filters from the `i`-th on; the waiting filter binds none. */
  function Bound(request: AgentRequest, i: nat): seq<string>
    decreases 4 - i
  {
    if i >= 3 then []
    else (if IsBlank(Filter(request, i)) then [] else [Filter(request, i).text]) + Bound(request, i + 1)
  }

  function FirstConnector(hasClause: int): Connector {
    if 0 < hasClause then And else Where
  }

  // ---- Meaning ----

  lemma Append3(a: seq<string>, v: string, b: seq<string>)
    ensures a + ([v] + b) == (a + [v]) + b && ((a + [v]) + b)[|a|] == v
    ensures a + ([] + b) == a + b && a + [] == a
  {
  }

  /** One atom, once its value is bound at its placeholder. */
  lemma AtomMeaning(i: nat, v: string, connector: Connector, n: nat,
                    args: seq<string>, row: Row, version: int, inet: Inet)
    requires i < 4 && v != "" && (i == 3 ==> v == "true" || v == "false")
    requires i < 3 ==> n < |args| && args[n] == v
    ensures var value := EvalAtom(AtomFor(i, v, connector, n, inet), args, row, version, inet);
            var served := OidFits(i, v) && ColumnServed(i, v, version, inet);
            && (value == Invalid <==> !served)
            && (value == True <==> served && FilterHolds(i, v, row, inet))
            && (value == False <==> served && FilterFails(i, v, row, inet))
  {
  }

  /** An atom and a rest: both must hold, and neither may fail. */
  lemma EvalMore(a: Atom, rest: Atoms, args: seq<string>, row: Row, version: int, inet: Inet)
    ensures var value := Eval(More(a, rest), args, row, version, inet);
            var x, y := EvalAtom(a, args, row, version, inet), Eval(rest, args, row, version, inet);
            && (value == Invalid <==> x == Invalid || y == Invalid) && (value == True <==> x == True && y == True)
            && (value == False <==> x != Invalid && y != Invalid && (x == False || y == False))
  {
  }

  /** One more filter in front of those whose meaning is known. */
  lemma MoreMeaning(i: nat, v: string, connector: Connector, n: nat, rest: Atoms,
                    args: seq<string>, row: Row, version: int, inet: Inet,
                    served: bool, holds: bool, fails: bool)
    requires i < 4 && v != "" && (i == 3 ==> v == "true" || v == "false")
    requires i < 3 ==> n < |args| && args[n] == v
    requires var value := Eval(rest, args, row, version, inet);
             && (value == Invalid <==> !served)
             && (value == True <==> served && holds) && (value == False <==> served && fails)
    ensures var value := Eval(More(AtomFor(i, v, connector, n, inet), rest), args, row, version, inet);
            var served' := OidFits(i, v) && ColumnServed(i, v, version, inet) && served;
            && (value == Invalid <==> !served')
            && (value == True <==> served' && FilterHolds(i, v, row, inet) && holds)
            && (value == False <==> served' && (FilterFails(i, v, row, inet) || fails))
  {
    AtomMeaning(i, v, connector, n, args, row, version, inet);
    EvalMore(AtomFor(i, v, connector, n, inet), rest, args, row, version, inet);
  }

  /** The values bound by the `i`-th filter. */
  function BoundAt(request: AgentRequest, i: nat): seq<string> {
    if i >= 3 || IsBlank(Filter(request, i)) then [] else [Filter(request, i).text]
  }

  lemma BoundSplits(request: AgentRequest, i: nat, before: seq<string>)
    requires i < 4
    ensures before + Bound(request, i) == (before + BoundAt(request, i)) + Bound(request, i + 1)
    ensures BoundAt(request, i) == [] ==> before + BoundAt(request, i) == before
    ensures BoundAt(request, i) != [] ==>
              && |before| < |before + Bound(request, i)|
              && (before + Bound(request, i))[|before|] == Filter(request, i).text
  {
    if i < 3 {
      Append3(before, if BoundAt(request, i) == [] then "" else Filter(request, i).text, Bound(request, i + 1));
    } else {
      Append3(before, "", []);
    }
  }

  lemma {:induction false} CompiledMeaning(
    request: AgentRequest, i: nat, connector: Connector, before: seq<string>, row: Row, version: int, inet: Inet)
    requires Accepted(request) && i <= 4
    ensures var atoms, args := Compiled(request, i, connector, |before|, inet), before + Bound(request, i);
            var value := Eval(atoms, args, row, version, inet);
            && (value == Invalid <==> !Served(request, i, version, inet))
            && (value == True <==> Served(request, i, version, inet) && Matches(request, i, row, inet))
            && (value == False <==> Served(request, i, version, inet) && Contradicts(request, i, row, inet))
    decreases 4 - i
  {
    if i < 4 {
      var f, args, after := Filter(request, i), before + Bound(request, i), before + BoundAt(request, i);
      BoundSplits(request, i, before);
      if IsBlank(f) {
        CompiledMeaning(request, i + 1, connector, before, row, version, inet);
      } else {
        CompiledMeaning(request, i + 1, And, after, row, version, inet);
        assert after + Bound(request, i + 1) == args && |after| == if i < 3 then |before| + 1 else |before|;
        MoreMeaning(i, f.text, connector, |before|, Compiled(request, i + 1, And, |after|, inet),
                    args, row, version, inet,
                    Served(request, i + 1, version, inet), Matches(request, i + 1, row, inet),
                    Contradicts(request, i + 1, row, inet));
      }
    }
  }

  lemma {:induction false} CompiledConnected(request: AgentRequest, i: nat, connector: Connector, n: nat, inet: Inet)
    ensures Connected(Compiled(request, i, connector, n, inet), connector)
    decreases 4 - i
  {
    if i < 4 {
      CompiledConnected(request, i + 1, if IsBlank(Filter(request, i)) then connector else And,
                        if IsBlank(Filter(request, i)) || i >= 3 then n else n + 1, inet);
    }
  }

  /** n + 1, n + 2, ..., n + k */
  function Numbers(n: nat, k: nat): seq<nat>
    decreases k
  {
    if k == 0 then [] else [n + 1] + Numbers(n + 1, k - 1)
  }

  /** Placeholders run on from `n + 1`, one for each bound value. */
  lemma {:induction false} PlaceholdersInStep(request: AgentRequest, i: nat, connector: Connector, n: nat, inet: Inet)
    ensures Placeholders(Compiled(request, i, connector, n, inet)) == Numbers(n, |Bound(request, i)|)
    decreases 4 - i
  {
    if i < 4 {
      if IsBlank(Filter(request, i)) {
        PlaceholdersInStep(request, i + 1, connector, n, inet);
        AppendNothing(Bound(request, i + 1));
      } else {
        PlaceholdersInStep(request, i + 1, And, if i < 3 then n + 1 else n, inet);
        AppendNothing(Placeholders(Compiled(request, i + 1, And, n, inet)));
      }
    }
  }

  /** The bound values are the non-empty ones of the first three filters, in order. */
  lemma BoundIsNonEmpty(request: AgentRequest)
    ensures Bound(request, 0) == NonEmpty([Filter(request, 0), Filter(request, 1), Filter(request, 2)])
  {
    var f0, f1, f2 := Filter(request, 0), Filter(request, 1), Filter(request, 2);
    var x0 := if IsBlank(f0) then [] else [f0.text];
    var x1 := if IsBlank(f1) then [] else [f1.text];
    var x2 := if IsBlank(f2) then [] else [f2.text];
    assert [f0, f1, f2][..2] == [f0, f1] && [f0, f1][..1] == [f0] && [f0][..0] == [];
    assert NonEmpty([f0]) == [] + x0;
    assert NonEmpty([f0, f1, f2]) == NonEmpty([f0, f1]) + x2 == NonEmpty([f0]) + x1 + x2;
    assert Bound(request, 2) == x2 + [] && Bound(request, 1) == x1 + Bound(request, 2);
    assert Bound(request, 0) == x0 + Bound(request, 1);
    assert [] + x0 + x1 + x2 == x0 + (x1 + (x2 + []));
  }

  lemma {:induction false} CompiledLength(request: AgentRequest, i: nat, connector: Connector, n: nat, inet: Inet)
    requires n <= i <= 4
    ensures |Render(Compiled(request, i, connector, n, inet))| <= 34 * (4 - i)
    ensures IsCString(Render(Compiled(request, i, connector, n, inet)))
    decreases 4 - i
  {
    if i < 4 {
      var f := Filter(request, i);
      if IsBlank(f) {
        CompiledLength(request, i + 1, connector, n, inet);
      } else {
        CompiledLength(request, i + 1, And, if i < 3 then n + 1 else n, inet);
        AtomLength(AtomFor(i, f.text, connector, n, inet));
      }
    }
  }

  lemma ConnectorLength(c: Connector)
    ensures |ConnectorWord(c)| <= 5 && IsCString(ConnectorWord(c))
  {
  }

  lemma ColumnLength(c: Column)
    ensures |ColumnWord(c)| <= 15 && IsCString(ColumnWord(c))
  {
  }

  lemma OperandLength(o: Operand)
    requires o.Truth? || o.n < 10
    ensures |OperandWord(o)| <= 8 && IsCString(OperandWord(o))
  {
  }

  lemma AtomLength(a: Atom)
    requires a.operand.Truth? || a.operand.n < 10
    ensures 0 < |AtomText(a)| <= 34 && IsCString(AtomText(a))
  {
    ConnectorLength(a.connector);
    ColumnLength(a.column);
    OperandLength(a.operand);
    var w1, w2, w4 := ConnectorWord(a.connector), ColumnWord(a.column), OperandWord(a.operand);
    assert IsCString(Spaced(w1)) && IsCString(Spaced(w2)) && IsCString(Spaced("=")) && IsCString(Spaced(w4));
  }

  lemma AtomsMeaning(request: AgentRequest, connector: Connector, row: Row, version: int, inet: Inet)
    requires Accepted(request)
    ensures var value := Eval(Compiled(request, 0, connector, 0, inet), Bound(request, 0), row, version, inet);
            && (value == Invalid <==> !Served(request, 0, version, inet))
            && (value == True <==> Served(request, 0, version, inet) && Matches(request, 0, row, inet))
            && (value == False <==> Served(request, 0, version, inet) && Contradicts(request, 0, row, inet))
  {
    CompiledMeaning(request, 0, connector, [], row, version, inet);
    assert [] + Bound(request, 0) == Bound(request, 0);
  }

  /** The value of the clause text built for a request, on a server of some version. */
  function ClauseValue(request: AgentRequest, first: Connector, row: Row, version: int, inet: Inet): Logic {
    EvalText(Render(Compiled(request, 0, first, 0, inet)), first, Bound(request, 0), row, version, inet)
  }

  /**
  The clause means the filters. The server rejects the text exactly when a
  filter is a number too large for an oid, which `is_oid` accepts, or needs a
  column that its version lacks; otherwise, on every row, the text with the
  bound values is true exactly when every non-empty filter holds.
  */
  lemma ClauseMeaning(request: AgentRequest, first: Connector, row: Row, version: int, inet: Inet)
    requires Accepted(request)
    ensures var value, served := ClauseValue(request, first, row, version, inet), Served(request, 0, version, inet);
            && (value == Invalid <==> !served)
            && (value == True <==> served && Matches(request, 0, row, inet))
            && (value == False <==> served && Contradicts(request, 0, row, inet))
  {
    AtomsMeaning(request, first, row, version, inet);
    CompiledConnected(request, 0, first, 0, inet);
    EvalTextOfRender(Compiled(request, 0, first, 0, inet), first, Bound(request, 0), row, version, inet);
  }

  // ---- By position ----

  /** The four filters are the parameters 2 to 5, NULL beyond the last. */
  lemma FilterPositions(request: AgentRequest)
    ensures var ps := request.params;
            && Filter(request, 0) == (if 2 < |ps| then ps[2] else Null)
            && Filter(request, 1) == (if 3 < |ps| then ps[3] else Null)
            && Filter(request, 2) == (if 4 < |ps| then ps[4] else Null)
            && Filter(request, 3) == (if 5 < |ps| then ps[5] else Null)
  {
  }

  /** A parameter's text, empty if it is missing or NULL. */
  function Text(ps: seq<CharPtr>, n: nat): (s: string)
    ensures s == if n < |ps| && ps[n].Str? then ps[n].text else ""
  {
    if n < |ps| && ps[n].Str? then ps[n].text else ""
  }

  /** The request is accepted exactly when parameter 5 is missing, blank, true or false. */
  lemma AcceptedByPosition(request: AgentRequest)
    ensures Accepted(request) <==> Text(request.params, 5) in ["", "true", "false"]
  {
    FilterPositions(request);
  }

  /** The values bound: the non-empty ones of parameters 2, 3 and 4, in that order. */
  lemma BoundByPosition(request: AgentRequest)
    ensures var database, user, client := Text(request.params, 2), Text(request.params, 3), Text(request.params, 4);
            Bound(request, 0) ==
              (if database == "" then [] else [database])
              + ((if user == "" then [] else [user])
                 + (if client == "" then [] else [client]))
  {
    FilterPositions(request);
    AppendNothing(BoundAt(request, 2));
    assert Bound(request, 2) == BoundAt(request, 2) + Bound(request, 3);
    assert Bound(request, 1) == BoundAt(request, 1) + Bound(request, 2);
  }

  /** When the server accepts the text: what parameters 2 to 5 ask of it. */
  lemma ServedByPosition(request: AgentRequest, version: int, inet: Inet)
    ensures var database, user := Text(request.params, 2), Text(request.params, 3);
            var client, waiting := Text(request.params, 4), Text(request.params, 5);
            Served(request, 0, version, inet) <==>
              && (database != "" && AllDigits(database) ==> Value(database) < 0x1_0000_0000)
              && (user != "" && AllDigits(user) ==> Value(user) < 0x1_0000_0000)
              && (client != "" && inet(client).Nothing? ==> 90100 <= version)
              && (waiting != "" ==> 80200 <= version < 90600)
  {
    FilterPositions(request);
    assert Served(request, 4, version, inet);
    assert Served(request, 3, version, inet) <==> IsBlank(Filter(request, 3)) || 80200 <= version < 90600;
    assert Served(request, 2, version, inet) <==>
           (IsBlank(Filter(request, 2)) || ColumnServed(2, Filter(request, 2).text, version, inet))
           && Served(request, 3, version, inet);
    assert Served(request, 1, version, inet) <==>
           (IsBlank(Filter(request, 1)) || OidFits(1, Filter(request, 1).text)) && Served(request, 2, version, inet);
  }

  lemma MatchesByPosition(request: AgentRequest, row: Row, inet: Inet)
    ensures var database, user := Text(request.params, 2), Text(request.params, 3);
            var client, waiting := Text(request.params, 4), Text(request.params, 5);
            Matches(request, 0, row, inet) <==>
              && (database == "" || (if AllDigits(database) then row.datid.Just? && row.datid.value == Value(database)
                                     else row.datname == Str(database)))
              && (user == "" || (if AllDigits(user) then row.usesysid.Just? && row.usesysid.value == Value(user)
                                 else row.usename == Str(user)))
              && (client == "" || (if inet(client).Just? then row.clientAddr == inet(client)
                                   else row.clientHostname == Str(client)))
              && (waiting == "" || row.waiting == Just(waiting == "true"))
  {
    FilterPositions(request);
    var holds := (i: nat) => IsBlank(Filter(request, i)) || FilterHolds(i, Filter(request, i).text, row, inet);
    assert Matches(request, 3, row, inet) <==> holds(3) && Matches(request, 4, row, inet);
    assert Matches(request, 2, row, inet) <==> holds(2) && Matches(request, 3, row, inet);
    assert Matches(request, 1, row, inet) <==> holds(1) && Matches(request, 2, row, inet);
  }

  /**
  The clause on a row, parameter by parameter: database against the row's
  database, user against its user, client against its address or host name,
  waiting against its waiting column.
  */
  lemma ClauseByPosition(request: AgentRequest, first: Connector, row: Row, version: int, inet: Inet)
    requires Text(request.params, 5) in ["", "true", "false"]
    ensures var database, user := Text(request.params, 2), Text(request.params, 3);
            var client, waiting := Text(request.params, 4), Text(request.params, 5);
            var served :=
              && (database != "" && AllDigits(database) ==> Value(database) < 0x1_0000_0000)
              && (user != "" && AllDigits(user) ==> Value(user) < 0x1_0000_0000)
              && (client != "" && inet(client).Nothing? ==> 90100 <= version)
              && (waiting != "" ==> 80200 <= version < 90600);
            var value := ClauseValue(request, first, row, version, inet);
            && (value == Invalid <==> !served)
            && (value == True <==>
                && served
                && (database == "" || (if AllDigits(database) then row.datid.Just? && row.datid.value == Value(database)
                                       else row.datname == Str(database)))
                && (user == "" || (if AllDigits(user) then row.usesysid.Just? && row.usesysid.value == Value(user)
                                   else row.usename == Str(user)))
                && (client == "" || (if inet(client).Just? then row.clientAddr == inet(client)
                                     else row.clientHostname == Str(client)))
                && (waiting == "" || row.waiting == Just(waiting == "true")))
  {
    AcceptedByPosition(request);
    ServedByPosition(request, version, inet);
    MatchesByPosition(request, row, inet);
    ClauseMeaning(request, first, row, version, inet);
  }

  /** What parameter `n` with the text `v` adds to the clause, after a connector, as placeholder `k`. */
  function ParameterText(n: nat, word: string, v: string, k: nat, inet: Inet): string {
    if n == 2 then " " + word + (if AllDigits(v) then " datid = $" else " datname = $") + Digits(k)
    else if n == 3 then " " + word + (if AllDigits(v) then " usesysid = $" else " usename = $") + Digits(k)
    else if n == 4 then
      if inet(v).Just? then " " + word + " client_addr = $" + Digits(k) + "::inet"
      else " " + word + " client_hostname = $" + Digits(k)
    else " " + word + (if v == "true" then " waiting = TRUE" else " waiting = FALSE")
  }

  /** What the parameters from the `n`-th to the fifth add: nothing if empty, and AND after the first that is not. */
  function ParametersText(ps: seq<CharPtr>, n: nat, word: string, k: nat, inet: Inet): string
    decreases 6 - n
  {
    if n > 5 then ""
    else
      var v := Text(ps, n);
      if v == "" then ParametersText(ps, n + 1, word, k, inet)
      else ParameterText(n, word, v, k, inet) + ParametersText(ps, n + 1, "AND", if n < 5 then k + 1 else k, inet)
  }

  /** `has_clause` chooses the first connector. */
  lemma FirstWord(hasClause: int)
    ensures ConnectorWord(FirstConnector(hasClause)) == if 0 < hasClause then "AND" else "WHERE"
    ensures ConnectorWord(And) == "AND"
  {
  }

  lemma AtomOperand(i: nat, v: string, c: Connector, n: nat, inet: Inet)
    requires i < 4
    ensures var atom := AtomFor(i, v, c, n, inet);
            atom == Atom(c, atom.column, OperandFor(atom.column, n + 1, v == "true"))
  {
  }

  lemma FormattedIsParameterText(i: nat, v: string, word: string, c: Connector, n: nat, inet: Inet)
    requires i < 4 && v != ""
    ensures Formatted(word, AtomFor(i, v, c, n, inet).column, n + 1, v == "true") ==
            ParameterText(i + 2, word, v, n + 1, inet)
  {
  }

  lemma PartIsParameterText(request: AgentRequest, i: nat, c: Connector, n: nat, inet: Inet)
    requires i < 4 && !IsBlank(Filter(request, i))
    ensures AtomText(AtomFor(i, Filter(request, i).text, c, n, inet)) ==
            ParameterText(i + 2, ConnectorWord(c), Text(request.params, i + 2), n + 1, inet)
  {
    var v := Filter(request, i).text;
    FilterPositions(request);
    AtomOperand(i, v, c, n, inet);
    FormattedIsAtom(c, AtomFor(i, v, c, n, inet).column, n + 1, v == "true");
    FormattedIsParameterText(i, v, ConnectorWord(c), c, n, inet);
  }

  lemma RenderTaken(request: AgentRequest, i: nat, c: Connector, n: nat, inet: Inet)
    requires i < 4 && !IsBlank(Filter(request, i))
    ensures Render(Compiled(request, i, c, n, inet)) ==
            AtomText(AtomFor(i, Filter(request, i).text, c, n, inet))
            + Render(Compiled(request, i + 1, And, if i < 3 then n + 1 else n, inet))
  {
  }

  /** A filter is blank exactly if its parameter's text is empty. */
  lemma BlankByPosition(request: AgentRequest, i: nat)
    requires i < 4
    ensures IsBlank(Filter(request, i)) <==> Text(request.params, i + 2) == ""
  {
    FilterPositions(request);
  }

  /** The text, parameter by parameter, in the words of the source's format strings. */
  lemma {:induction false} ClauseTextByPosition(request: AgentRequest, i: nat, c: Connector, n: nat, inet: Inet)
    requires i <= 4
    ensures Render(Compiled(request, i, c, n, inet)) ==
            ParametersText(request.params, i + 2, ConnectorWord(c), n + 1, inet)
    decreases 4 - i
  {
    if i < 4 {
      BlankByPosition(request, i);
      FirstWord(1);
      if IsBlank(Filter(request, i)) {
        ClauseTextByPosition(request, i + 1, c, n, inet);
      } else {
        PartIsParameterText(request, i, c, n, inet);
        ClauseTextByPosition(request, i + 1, And, if i < 3 then n + 1 else n, inet);
        RenderTaken(request, i, c, n, inet);
      }
    }
  }

  /** The source's format strings, one for each column. */
  lemma FormatTexts(c: Connector, n: nat, b: bool)
    ensures var w := " " + (if c.And? then "AND" else "WHERE");
            && AtomText(Atom(c, DatId, Param(n))) == w + " datid = $" + Digits(n)
            && AtomText(Atom(c, DatName, Param(n))) == w + " datname = $" + Digits(n)
            && AtomText(Atom(c, UseSysId, Param(n))) == w + " usesysid = $" + Digits(n)
            && AtomText(Atom(c, UseName, Param(n))) == w + " usename = $" + Digits(n)
            && AtomText(Atom(c, ClientAddr, InetParam(n))) == w + " client_addr = $" + Digits(n) + "::inet"
            && AtomText(Atom(c, ClientHostname, Param(n))) == w + " client_hostname = $" + Digits(n)
            && AtomText(Atom(c, Waiting, Truth(b))) == w + (if b then " waiting = TRUE" else " waiting = FALSE")
  {
    FormattedIsAtom(c, DatId, n, b);
    FormattedIsAtom(c, DatName, n, b);
    FormattedIsAtom(c, UseSysId, n, b);
    FormattedIsAtom(c, UseName, n, b);
    FormattedIsAtom(c, ClientAddr, n, b);
    FormattedIsAtom(c, ClientHostname, n, b);
    FormattedIsAtom(c, Waiting, n, b);
    FormatIs(ConnectorWord(c), n, b);
  }

  /** A text of one atom. */
  lemma OneAtom(a: Atom, args: seq<string>, row: Row, version: int, inet: Inet)
    ensures EvalText(AtomText(a), a.connector, args, row, version, inet) == EvalAtom(a, args, row, version, inet)
  {
    AppendNothing(AtomText(a));
    assert Render(More(a, NoAtoms)) == AtomText(a) + Render(NoAtoms) == AtomText(a);
    EvalTextOfRender(More(a, NoAtoms), a.connector, args, row, version, inet);
  }

  /** What each column's words mean on a row: the database's name. */
  lemma DatabaseNameMeaning(c: Connector, k: nat, args: seq<string>, row: Row, version: int, inet: Inet)
    requires 0 < k <= |args|
    ensures var w, d, v := " " + (if c.And? then "AND" else "WHERE"), Digits(k), args[k - 1];
            EvalText(w + " datname = $" + d, c, args, row, version, inet) ==
              if row.datname.Null? then Unknown else if row.datname.text == v then True else False
  {
    FormatTexts(c, k, true);
    OneAtom(Atom(c, DatName, Param(k)), args, row, version, inet);
  }

  /** The user's name. */
  lemma UserNameMeaning(c: Connector, k: nat, args: seq<string>, row: Row, version: int, inet: Inet)
    requires 0 < k <= |args|
    ensures var w, d, v := " " + (if c.And? then "AND" else "WHERE"), Digits(k), args[k - 1];
            EvalText(w + " usename = $" + d, c, args, row, version, inet) ==
              if row.usename.Null? then Unknown else if row.usename.text == v then True else False
  {
    FormatTexts(c, k, true);
    OneAtom(Atom(c, UseName, Param(k)), args, row, version, inet);
  }

  lemma HostNameText(c: Connector, k: nat)
    ensures AtomText(Atom(c, ClientHostname, Param(k))) ==
            " " + (if c.And? then "AND" else "WHERE") + " client_hostname = $" + Digits(k)
  {
    FormatTexts(c, k, true);
  }

  lemma HostNameAtom(c: Connector, k: nat, args: seq<string>, row: Row, version: int, inet: Inet)
    requires 0 < k <= |args|
    ensures EvalAtom(Atom(c, ClientHostname, Param(k)), args, row, version, inet) ==
            if version < 90100 then Invalid else EqualText(row.clientHostname, args[k - 1])
  {
  }

  /** The client's host name. */
  lemma HostNameMeaning(c: Connector, k: nat, args: seq<string>, row: Row, version: int, inet: Inet)
    requires 0 < k <= |args|
    ensures var w, d, v := " " + (if c.And? then "AND" else "WHERE"), Digits(k), args[k - 1];
            EvalText(w + " client_hostname = $" + d, c, args, row, version, inet) ==
              if version < 90100 then Invalid
              else if row.clientHostname.Null? then Unknown
              else if row.clientHostname.text == v then True else False
  {
    var value := EvalText(AtomText(Atom(c, ClientHostname, Param(k))), c, args, row, version, inet);
    HostNameText(c, k);
    OneAtom(Atom(c, ClientHostname, Param(k)), args, row, version, inet);
    HostNameAtom(c, k, args, row, version, inet);
    assert value == if version < 90100 then Invalid else EqualText(row.clientHostname, args[k - 1]);
  }

  /** The columns of oids. */
  lemma OidColumnsMeaning(c: Connector, k: nat, args: seq<string>, row: Row, version: int, inet: Inet)
    requires 0 < k <= |args|
    ensures var w, d, v := " " + (if c.And? then "AND" else "WHERE"), Digits(k), args[k - 1];
            && EvalText(w + " datid = $" + d, c, args, row, version, inet) ==
                 (if v == "" || !AllDigits(v) || Value(v) >= 0x1_0000_0000 then Invalid
                  else if row.datid.Nothing? then Unknown
                  else if row.datid.value == Value(v) then True else False)
            && EvalText(w + " usesysid = $" + d, c, args, row, version, inet) ==
                 (if v == "" || !AllDigits(v) || Value(v) >= 0x1_0000_0000 then Invalid
                  else if row.usesysid.Nothing? then Unknown
                  else if row.usesysid.value == Value(v) then True else False)
  {
    FormatTexts(c, k, true);
    OneAtom(Atom(c, DatId, Param(k)), args, row, version, inet);
    OneAtom(Atom(c, UseSysId, Param(k)), args, row, version, inet);
  }

  /** The address. */
  lemma AddressColumnMeaning(c: Connector, k: nat, args: seq<string>, row: Row, version: int, inet: Inet)
    requires 0 < k <= |args|
    ensures var w, d, v := " " + (if c.And? then "AND" else "WHERE"), Digits(k), args[k - 1];
            EvalText(w + " client_addr = $" + d + "::inet", c, args, row, version, inet) ==
              if inet(v).Nothing? then Invalid
              else if row.clientAddr.Nothing? then Unknown
              else if row.clientAddr == inet(v) then True else False
  {
    FormatTexts(c, k, true);
    OneAtom(Atom(c, ClientAddr, InetParam(k)), args, row, version, inet);
  }

  /** The waiting flag. */
  lemma WaitingColumnMeaning(c: Connector, args: seq<string>, row: Row, version: int, inet: Inet)
    ensures var w := " " + (if c.And? then "AND" else "WHERE");
            && EvalText(w + " waiting = TRUE", c, args, row, version, inet) ==
                 (if !(80200 <= version < 90600) then Invalid
                  else if row.waiting.Nothing? then Unknown else if row.waiting.value then True else False)
            && EvalText(w + " waiting = FALSE", c, args, row, version, inet) ==
                 (if !(80200 <= version < 90600) then Invalid
                  else if row.waiting.Nothing? then Unknown else if row.waiting.value then False else True)
  {
    FormatTexts(c, 1, true);
    FormatTexts(c, 1, false);
    OneAtom(Atom(c, Waiting, Truth(true)), args, row, version, inet);
    OneAtom(Atom(c, Waiting, Truth(false)), args, row, version, inet);
  }

  /** The text `build_activity_clause` writes. */
  lemma BuiltText(request: AgentRequest, hasClause: int, inet: Inet)
    ensures Render(Compiled(request, 0, FirstConnector(hasClause), 0, inet)) ==
            ParametersText(request.params, 2, if 0 < hasClause then "AND" else "WHERE", 1, inet)
  {
    FirstWord(hasClause);
    ClauseTextByPosition(request, 0, FirstConnector(hasClause), 0, inet);
  }

  lemma FormatIs(w: string, n: nat, b: bool)
    ensures Formatted(w, DatId, n, b) == " " + w + " datid = $" + Digits(n)
    ensures Formatted(w, DatName, n, b) == " " + w + " datname = $" + Digits(n)
    ensures Formatted(w, UseSysId, n, b) == " " + w + " usesysid = $" + Digits(n)
    ensures Formatted(w, UseName, n, b) == " " + w + " usename = $" + Digits(n)
    ensures Formatted(w, ClientAddr, n, b) == " " + w + " client_addr = $" + Digits(n) + "::inet"
    ensures Formatted(w, ClientHostname, n, b) == " " + w + " client_hostname = $" + Digits(n)
    ensures Formatted(w, Waiting, n, b) == " " + w + (if b then " waiting = TRUE" else " waiting = FALSE")
  {
  }

  // ---- The compiler ----

  /** `is_oid`: 1 if the string is one or more digits. */
  method IsOidScan(str: string) returns (res: int)
    ensures res == if IsOid(str) then 1 else 0
  {
    res := 0;
    var p := 0;
    while p < |str|
      invariant 0 <= p <= |str|
      invariant AllDigits(str[..p]) && res == if p == 0 then 0 else 1
    {
      if !IsDigit(str[p]) {
        return 0;
      }
      assert str[..p + 1] == str[..p] + [str[p]];
      res := 1;
      p := p + 1;
    }
    assert str[..p] == str;
  }

  const PG_AND := "AND"
  const PG_WHERE := "WHERE"

  /** The format strings, with `clause` and the placeholder number filled in. */
  function Formatted(clause: string, column: Column, pgi: nat, b: bool): string {
    match column
    case Waiting => " " + clause + (if b then " waiting = TRUE" else " waiting = FALSE")
    case ClientAddr => " " + clause + InfixOf(column) + Digits(pgi) + "::inet"
    case _ => " " + clause + InfixOf(column) + Digits(pgi)
  }

  /** One format string: the connector, what stands between it and the operand, and the operand. */
  lemma Pieces(w: string, infix: string, name: string, operand: string, rest: string)
    requires infix + operand == " " + name + " = " + rest
    ensures " " + w + infix + operand == Spaced(w) + Spaced(name) + Spaced("=") + Spaced(rest)
  {
    AppendAssociative(" " + w, infix, operand);
    assert " " + name + " = " + rest == " " + name + (" =" + (" " + rest));
    AppendAssociative(" " + w, " " + name, " =" + (" " + rest));
    AppendAssociative(" " + w + (" " + name), " =", " " + rest);
  }

  /** ` name = $` followed by digits. */
  lemma ParamInfix(infix: string, name: string, d: string)
    requires infix == " " + name + " = $"
    ensures infix + d == " " + name + " = " + ("$" + d)
  {
    assert infix == (" " + name + " = ") + "$";
    AppendAssociative(" " + name + " = ", "$", d);
  }

  function InfixOf(column: Column): string
    requires !column.Waiting?
  {
    match column
    case DatId => " datid = $"
    case DatName => " datname = $"
    case UseSysId => " usesysid = $"
    case UseName => " usename = $"
    case ClientAddr => " client_addr = $"
    case ClientHostname => " client_hostname = $"
  }

  lemma DatabaseInfixes()
    ensures " datid = $" == " " + "datid" + " = $" && " datname = $" == " " + "datname" + " = $"
    ensures " usesysid = $" == " " + "usesysid" + " = $" && " usename = $" == " " + "usename" + " = $"
  {
  }

  lemma ClientInfixes()
    ensures " client_addr = $" == " " + "client_addr" + " = $"
    ensures " client_hostname = $" == " " + "client_hostname" + " = $"
  {
  }

  lemma WaitingInfixes()
    ensures " waiting = TRUE" == " " + "waiting" + " = " + "TRUE"
    ensures " waiting = FALSE" == " " + "waiting" + " = " + "FALSE"
  {
  }

  function OperandFor(column: Column, pgi: nat, b: bool): Operand {
    if column.Waiting? then Truth(b) else if column.ClientAddr? then InetParam(pgi) else Param(pgi)
  }

  /** Each format string prints the atom it stands for. */
  lemma FormattedIsAtom(c: Connector, column: Column, pgi: nat, b: bool)
    ensures Formatted(ConnectorWord(c), column, pgi, b) ==
            AtomText(Atom(c, column, OperandFor(column, pgi, b)))
  {
    var w, name, d := ConnectorWord(c), ColumnWord(column), Digits(pgi);
    DatabaseInfixes();
    ClientInfixes();
    WaitingInfixes();
    if column.Waiting? {
      var infix := if b then " waiting = TRUE" else " waiting = FALSE";
      AppendNothing(infix);
      AppendNothing(" " + w + infix);
      Pieces(w, infix, name, "", if b then "TRUE" else "FALSE");
    } else {
      var infix := InfixOf(column);
      ParamInfix(infix, name, d);
      if column.ClientAddr? {
        AppendAssociative(infix, d, "::inet");
        AppendAssociative(" " + name + " = ", "$" + d, "::inet");
        Pieces(w, infix, name, d + "::inet", "$" + d + "::inet");
        AppendAssociative(" " + w + infix, d, "::inet");
      } else {
        Pieces(w, infix, name, d, "$" + d);
      }
    }
  }

  /** What has been written and bound when the loop reaches the `i`-th filter. */
  datatype Building = Building(text: string, args: seq<string>, connector: Connector)

  function Progress(request: AgentRequest, i: nat, first: Connector, inet: Inet): Building {
    if i == 0 then Building("", [], first)
    else
      var st, f := Progress(request, i - 1, first, inet), Filter(request, i - 1);
      if IsBlank(f) then st
      else
        Building(st.text + AtomText(AtomFor(i - 1, f.text, st.connector, |st.args|, inet)),
                 if i - 1 < 3 then st.args + [f.text] else st.args,
                 And)
  }

  lemma {:induction false} ProgressBounds(request: AgentRequest, i: nat, first: Connector, inet: Inet)
    requires i <= 4
    ensures var st := Progress(request, i, first, inet); |st.args| <= i && |st.text| <= 34 * i
  {
    if i > 0 {
      ProgressBounds(request, i - 1, first, inet);
      var st, f := Progress(request, i - 1, first, inet), Filter(request, i - 1);
      if !IsBlank(f) {
        AtomLength(AtomFor(i - 1, f.text, st.connector, |st.args|, inet));
      }
    }
  }

  /** One filter's share. */
  lemma ProgressStep(request: AgentRequest, i: nat, first: Connector, inet: Inet)
    requires i < 4
    ensures var st, f := Progress(request, i, first, inet), Filter(request, i);
            var next := Progress(request, i + 1, first, inet);
            && |next.text| <= 34 * (i + 1) && |next.args| <= i + 1
            && (IsBlank(f) ==> next == st)
            && (!IsBlank(f) ==>
                  next == Building(st.text + AtomText(AtomFor(i, f.text, st.connector, |st.args|, inet)),
                                   if i < 3 then st.args + [f.text] else st.args, And))
  {
    ProgressBounds(request, i + 1, first, inet);
  }

  /** What is still to come completes what has been built. */
  lemma {:induction false} ProgressCompletes(request: AgentRequest, i: nat, first: Connector, inet: Inet)
    requires i <= 4
    ensures var st := Progress(request, i, first, inet);
            && st.text + Render(Compiled(request, i, st.connector, |st.args|, inet)) ==
               Render(Compiled(request, 0, first, 0, inet))
            && st.args + Bound(request, i) == Bound(request, 0)
  {
    if i == 0 {
      AppendNothing(Render(Compiled(request, 0, first, 0, inet)));
      AppendNothing(Bound(request, 0));
    } else {
      ProgressCompletes(request, i - 1, first, inet);
      TextMoves(request, i - 1, first, inet);
      ArgsMove(request, i - 1, first, inet);
    }
  }

  /** Moving one filter from what is to come to what has been built: the text. */
  lemma TextMoves(request: AgentRequest, i: nat, first: Connector, inet: Inet)
    requires i < 4
    ensures var st, next := Progress(request, i, first, inet), Progress(request, i + 1, first, inet);
            next.text + Render(Compiled(request, i + 1, next.connector, |next.args|, inet)) ==
            st.text + Render(Compiled(request, i, st.connector, |st.args|, inet))
  {
    var st := Progress(request, i, first, inet);
    if !IsBlank(Filter(request, i)) {
      TextShifts(request, i, st.connector, |st.args|, inet, st.text);
    }
  }

  /** The same for the bound values. */
  lemma ArgsMove(request: AgentRequest, i: nat, first: Connector, inet: Inet)
    requires i < 4
    ensures Progress(request, i + 1, first, inet).args + Bound(request, i + 1) ==
            Progress(request, i, first, inet).args + Bound(request, i)
  {
    var st, next := Progress(request, i, first, inet), Progress(request, i + 1, first, inet);
    BoundSplits(request, i, st.args);
    assert next.args == st.args + BoundAt(request, i) by {
      Append3(st.args, "", []);
    }
  }

  /** The text of a non-empty filter followed by the text of the rest. */
  lemma TextShifts(request: AgentRequest, i: nat, connector: Connector, n: nat, inet: Inet, text: string)
    requires i < 4 && !IsBlank(Filter(request, i))
    ensures (text + AtomText(AtomFor(i, Filter(request, i).text, connector, n, inet)))
            + Render(Compiled(request, i + 1, And, if i < 3 then n + 1 else n, inet)) ==
            text + Render(Compiled(request, i, connector, n, inet))
  {
    RenderMore(text, AtomFor(i, Filter(request, i).text, connector, n, inet),
               Compiled(request, i + 1, And, if i < 3 then n + 1 else n, inet));
  }

  lemma RenderMore(text: string, a: Atom, rest: Atoms)
    ensures (text + AtomText(a)) + Render(rest) == text + Render(More(a, rest))
  {
    AppendAssociative(text, AtomText(a), Render(rest));
  }

  /** At the end everything has been built; before the last filter every value has been bound. */
  lemma ProgressEnds(request: AgentRequest, first: Connector, inet: Inet)
    ensures Progress(request, 4, first, inet).text == Render(Compiled(request, 0, first, 0, inet))
    ensures Progress(request, 4, first, inet).args == Bound(request, 0)
    ensures Progress(request, 3, first, inet).args == Bound(request, 0)
  {
    ProgressCompletes(request, 4, first, inet);
    ProgressCompletes(request, 3, first, inet);
    var st, st3 := Progress(request, 4, first, inet), Progress(request, 3, first, inet);
    assert st.text + "" == st.text && st.args + [] == st.args && st3.args + [] == st3.args;
  }

  /**
  The body of the loop for one non-empty filter: bind its value, print its atom
  at the end of the text.
  */
  method EmitFilter(heap: Heap, i: nat, param: string, clause: string, pgi: nat, buf: array<char>, pos: nat,
                    params: PGparams, inet: Inet,
                    ghost connector: Connector, ghost text: string, ghost args: seq<string>)
    returns (ok: bool, r: PGparams)
    requires i < 4 && param != "" && pgi < 9 && clause == ConnectorWord(connector)
    requires Holds(params, args) && Blocks(params) <= heap.live && |args| == pgi
    requires BufHolds(buf[..], text) && pos == |text| && |text| + 34 < buf.Length == MAX_CLAUSE_LEN
    modifies heap, buf
    ensures ok <==> (i == 3 ==> param == "true" || param == "false")
    ensures Holds(r, if i < 3 then args + [param] else args) && Blocks(r) <= heap.live
    ensures heap.live - Blocks(r) == old(heap.live) - old(Blocks(params))
    ensures r != params ==> fresh(r)
    ensures var added := AtomText(AtomFor(i, param, connector, pgi, inet));
            ok ==> BufHolds(buf[..], text + added) && TextAt(buf[..], pos) == added
  {
    var column := Waiting;
    var yes := false;
    ok, r := true, params;
    if i == 0 {
      r := ParamAppend(heap, params, Str(param), args);
      var oid := IsOidScan(param);
      column := if oid != 0 then DatId else DatName;
    } else if i == 1 {
      r := ParamAppend(heap, params, Str(param), args);
      var oid := IsOidScan(param);
      column := if oid != 0 then UseSysId else UseName;
    } else if i == 2 {
      r := ParamAppend(heap, params, Str(param), args);
      column := if inet(param).Just? then ClientAddr else ClientHostname;
    } else {
      StrncmpMeaning("true", param, 5);
      StrncmpMeaning("false", param, 6);
      if StrncmpEqual("true", param, 5) {
        yes := true;
      } else if !StrncmpEqual("false", param, 6) {
        return false, params;
      }
    }
    PrintAtom(i, param, clause, pgi, column, yes, buf, pos, inet, connector, text);
  }

  /** The `snprintf` of the chosen format string. */
  method PrintAtom(i: nat, param: string, clause: string, pgi: nat, column: Column, yes: bool,
                   buf: array<char>, pos: nat, inet: Inet, ghost connector: Connector, ghost text: string)
    requires i < 4 && pgi < 9 && clause == ConnectorWord(connector)
    requires AtomFor(i, param, connector, pgi, inet) ==
             Atom(connector, column, OperandFor(column, pgi + 1, yes))
    requires BufHolds(buf[..], text) && pos == |text| && |text| + 34 < buf.Length == MAX_CLAUSE_LEN
    modifies buf
    ensures var added := AtomText(AtomFor(i, param, connector, pgi, inet));
            BufHolds(buf[..], text + added) && TextAt(buf[..], pos) == added
  {
    var added := Formatted(clause, column, pgi + 1, yes);
    FormattedIsAtom(connector, column, pgi + 1, yes);
    AtomLength(AtomFor(i, param, connector, pgi, inet));
    PrintAt(buf, pos, MAX_CLAUSE_LEN, added, text);
  }

  /**
  Build the clause for a request into a zeroed buffer, and the vector of its
  bound values. On an unsupported waiting filter the values bound so far stay
  with the caller.
  */
  method BuildActivityClause(heap: Heap, request: AgentRequest, buf: array<char>, hasClause: int, inet: Inet)
    returns (ok: bool, params: PGparams)
    requires buf.Length == MAX_CLAUSE_LEN && BufHolds(buf[..], "")
    modifies heap, buf
    ensures ok <==> Accepted(request)
    ensures Holds(params, Bound(request, 0)) && Blocks(params) <= heap.live
    ensures heap.live - Blocks(params) == old(heap.live) && (params != null ==> fresh(params))
    ensures ok ==> TextAt(buf[..], 0) == Render(Compiled(request, 0, FirstConnector(hasClause), 0, inet))
  {
    var clause := if 0 < hasClause then PG_AND else PG_WHERE;
    var pgi, pos, i := 0, 0, 0;
    params := null;
    ghost var st := Progress(request, 0, FirstConnector(hasClause), inet);
    while i < 4
      invariant 0 <= i <= 4 && st == Progress(request, i, FirstConnector(hasClause), inet)
      invariant clause == ConnectorWord(st.connector) && pgi == |st.args| <= i
      invariant Holds(params, st.args) && Blocks(params) <= heap.live
      invariant heap.live - Blocks(params) == old(heap.live) && (params != null ==> fresh(params))
      invariant BufHolds(buf[..], st.text) && pos == |st.text| <= 34 * i
      invariant i == 4 ==> Accepted(request)
    {
      var param := Filter(request, i);
      ProgressStep(request, i, FirstConnector(hasClause), inet);
      if !IsBlank(param) {
        ok, params :=
          EmitFilter(heap, i, param.text, clause, pgi, buf, pos, params, inet, st.connector, st.text, st.args);
        if !ok {
          ProgressEnds(request, FirstConnector(hasClause), inet);
          return false, params;
        }
        pgi := if i < 3 then pgi + 1 else pgi;
        pos := pos + |TextAt(buf[..], pos)|;
        clause := PG_AND;
      }
      i := i + 1;
      st := Progress(request, i, FirstConnector(hasClause), inet);
    }
    ProgressEnds(request, FirstConnector(hasClause), inet);
    CompiledLength(request, 0, FirstConnector(hasClause), 0, inet);
    BufReads(buf[..], st.text);
    return true, params;
  }
}
