/**
The filter clauses on pg_stat_activity: their syntax as text, a parser for it,
and their value on a row with a vector of bound parameters, NULL columns
included.
*/
module Clauses {
  import opened CStrings
  import opened Decimals
  import opened Sequences

  datatype Maybe<T> = Nothing | Just(value: T) {
    function Or(default: T): T {
      if Nothing? then default else value
    }
  }

  datatype Connector = And | Where

  datatype Column = DatId | DatName | UseSysId | UseName | ClientAddr | ClientHostname | Waiting

  datatype Operand = Param(n: nat) | InetParam(n: nat) | Truth(b: bool)

  datatype Atom = Atom(connector: Connector, column: Column, operand: Operand)

  datatype Atoms = NoAtoms | More(head: Atom, tail: Atoms)

  // ---- Rendering ----

  function ConnectorWord(c: Connector): string {
    if c.And? then "AND" else "WHERE"
  }

  function ColumnWord(c: Column): string {
    match c
    case DatId => "datid"
    case DatName => "datname"
    case UseSysId => "usesysid"
    case UseName => "usename"
    case ClientAddr => "client_addr"
    case ClientHostname => "client_hostname"
    case Waiting => "waiting"
  }

  function OperandWord(o: Operand): string {
    match o
    case Param(n) => "$" + Digits(n)
    case InetParam(n) => "$" + Digits(n) + "::inet"
    case Truth(b) => if b then "TRUE" else "FALSE"
  }

  function Spaced(w: string): string {
    " " + w
  }

  function AtomText(a: Atom): string {
    Spaced(ConnectorWord(a.connector)) + Spaced(ColumnWord(a.column)) + Spaced("=") + Spaced(OperandWord(a.operand))
  }

  function Render(atoms: Atoms): string {
    match atoms
    case NoAtoms => ""
    case More(a, rest) => AtomText(a) + Render(rest)
  }

  // ---- Parsing ----

  /** The end of the word that starts at `i`. */
  function WordEnd(s: string, i: nat): (e: nat)
    requires i <= |s|
    ensures i <= e <= |s|
    decreases |s| - i
  {
    if i < |s| && s[i] != ' ' then WordEnd(s, i + 1) else i
  }

  function ParseConnector(w: string): Maybe<Connector> {
    if w == "AND" then Just(And) else if w == "WHERE" then Just(Where) else Nothing
  }

  function ParseColumn(w: string): Maybe<Column> {
    if w == "datid" then Just(DatId)
    else if w == "datname" then Just(DatName)
    else if w == "usesysid" then Just(UseSysId)
    else if w == "usename" then Just(UseName)
    else if w == "client_addr" then Just(ClientAddr)
    else if w == "client_hostname" then Just(ClientHostname)
    else if w == "waiting" then Just(Waiting)
    else Nothing
  }

  /** `$n` or `$n::inet`. */
  function ParseParam(w: string): Maybe<Operand> {
    if w == "" || w[0] != '$' then Nothing
    else
      var e := DigitRun(w, 1);
      if e == 1 then Nothing
      else if e == |w| then Just(Param(Value(w[1..e])))
      else if w[e..] == "::inet" then Just(InetParam(Value(w[1..e])))
      else Nothing
  }

  function ParseOperand(w: string): Maybe<Operand> {
    if w == "TRUE" then Just(Truth(true))
    else if w == "FALSE" then Just(Truth(false))
    else ParseParam(w)
  }

  /** A word after one space, and where it ends. */
  datatype Lexeme = NoWord | Word(text: string, end: nat)

  function WordAt(s: string, i: nat): Lexeme
    requires i <= |s|
  {
    if i < |s| && s[i] == ' ' then Word(s[i + 1..WordEnd(s, i + 1)], WordEnd(s, i + 1)) else NoWord
  }

  datatype ParsedAtom = NoAtom | AnAtom(atom: Atom, end: nat)

  /** An atom is a connector, a column, an equals sign and an operand. */
  function ParseAtom(s: string, i: nat): (r: ParsedAtom)
    requires i <= |s|
    ensures r.AnAtom? ==> i < r.end <= |s|
  {
    var w1 := WordAt(s, i);
    if w1.NoWord? then NoAtom
    else
      var w2 := WordAt(s, w1.end);
      if w2.NoWord? then NoAtom
      else
        var w3 := WordAt(s, w2.end);
        if w3.NoWord? || w3.text != "=" then NoAtom
        else
          var w4 := WordAt(s, w3.end);
          if w4.NoWord? then NoAtom else AtomFrom(w1.text, w2.text, w4.text, w4.end)
  }

  function AtomFrom(w1: string, w2: string, w4: string, end: nat): (r: ParsedAtom)
    ensures r.AnAtom? ==> r.end == end
  {
    var connector, column, operand := ParseConnector(w1), ParseColumn(w2), ParseOperand(w4);
    if connector.Nothing? || column.Nothing? || operand.Nothing? then NoAtom
    else AnAtom(Atom(connector.value, column.value, operand.value), end)
  }

  /** The clause in `s` from byte `i` on. */
  function Parse(s: string, i: nat): Maybe<Atoms>
    requires i <= |s|
    decreases |s| - i
  {
    if i == |s| then Just(NoAtoms)
    else
      var first := ParseAtom(s, i);
      if first.NoAtom? then Nothing
      else
        var rest := Parse(s, first.end);
        if rest.Nothing? then Nothing else Just(More(first.atom, rest.value))
  }

  // ---- Round trip ----

  predicate IsWord(w: string) {
    forall i | 0 <= i < |w| :: w[i] != ' '
  }

  lemma {:induction false} WordEndStops(s: string, i: nat, e: nat)
    requires i <= e <= |s| && (forall x | i <= x < e :: s[x] != ' ') && (e == |s| || s[e] == ' ')
    ensures WordEnd(s, i) == e
    decreases e - i
  {
    if i < e {
      WordEndStops(s, i + 1, e);
    }
  }

  lemma WordSlices(pre: string, w: string, post: string)
    ensures var s, i := pre + Spaced(w) + post, |pre| + 1;
            && s[i - 1] == ' ' && s[i..i + |w|] == w && (post != "" ==> s[i + |w|] == post[0])
  {
    assert pre + Spaced(w) + post == (pre + " ") + w + post;
  }

  /** A word between a space and what follows it. */
  lemma WordReads(pre: string, w: string, post: string)
    requires IsWord(w) && (post == "" || post[0] == ' ')
    ensures WordAt(pre + Spaced(w) + post, |pre|) == Word(w, |pre + Spaced(w)|)
  {
    var s, i := pre + Spaced(w) + post, |pre| + 1;
    WordSlices(pre, w, post);
    forall x | i <= x < i + |w| ensures s[x] != ' ' {
      assert s[x] == s[i..i + |w|][x - i];
    }
    WordEndStops(s, i, i + |w|);
  }

  lemma ConnectorReads(c: Connector)
    ensures IsWord(ConnectorWord(c)) && ParseConnector(ConnectorWord(c)) == Just(c)
  {
  }

  lemma ColumnReads(c: Column)
    ensures IsWord(ColumnWord(c)) && ParseColumn(ColumnWord(c)) == Just(c)
  {
  }

  lemma ParamReads(d: string, tail: string)
    requires AllDigits(d) && d != "" && (tail == "" || !IsDigit(tail[0]))
    ensures var w := "$" + d + tail;
            w[0] == '$' && DigitRun(w, 1) == 1 + |d| && w[1..1 + |d|] == d && w[1 + |d|..] == tail
  {
    var w, e := "$" + d + tail, 1 + |d|;
    assert w[1..e] == d && w[e..] == tail;
    assert tail != "" ==> w[e] == tail[0];
    DigitRunStops(w, 1, e);
  }

  lemma WordJoin(a: string, b: string)
    requires IsWord(a) && IsWord(b)
    ensures IsWord(a + b)
  {
  }

  lemma OperandReads(o: Operand)
    ensures IsWord(OperandWord(o)) && ParseOperand(OperandWord(o)) == Just(o)
  {
    if !o.Truth? {
      var d, tail := Digits(o.n), if o.Param? then "" else "::inet";
      DigitsMeaning(o.n);
      ParamReads(d, tail);
      WordJoin("$", d);
      WordJoin("$" + d, tail);
      var w := "$" + d + tail;
      assert w == OperandWord(o);
      assert w[0] != "TRUE"[0] && w[0] != "FALSE"[0];
      assert ParseParam(w) == Just(o);
    }
  }

  /** Four pieces in a row, grouped at each of them. */
  lemma FourPieces(pre: string, x1: string, x2: string, x3: string, x4: string, post: string)
    ensures var s := pre + (x1 + x2 + x3 + x4) + post;
            && s == pre + x1 + (x2 + x3 + x4 + post)
            && s == pre + x1 + x2 + (x3 + x4 + post)
            && s == pre + x1 + x2 + x3 + (x4 + post)
            && s == pre + x1 + x2 + x3 + x4 + post
            && |pre + (x1 + x2 + x3 + x4)| == |pre + x1 + x2 + x3 + x4|
  {
  }

  /** An atom is read back wherever it stands. */
  lemma AtomReads(pre: string, a: Atom, post: string)
    requires post == "" || post[0] == ' '
    ensures ParseAtom(pre + AtomText(a) + post, |pre|) == AnAtom(a, |pre + AtomText(a)|)
  {
    var w1, w2, w4 := ConnectorWord(a.connector), ColumnWord(a.column), OperandWord(a.operand);
    ConnectorReads(a.connector);
    ColumnReads(a.column);
    OperandReads(a.operand);
    FourWords(pre, w1, w2, w4, post);
  }

  lemma FourWords(pre: string, w1: string, w2: string, w4: string, post: string)
    requires IsWord(w1) && IsWord(w2) && IsWord(w4) && (post == "" || post[0] == ' ')
    ensures var text := Spaced(w1) + Spaced(w2) + Spaced("=") + Spaced(w4);
            ParseAtom(pre + text + post, |pre|) == AtomFrom(w1, w2, w4, |pre + text|)
  {
    var x1, x2, x3, x4 := Spaced(w1), Spaced(w2), Spaced("="), Spaced(w4);
    FourPieces(pre, x1, x2, x3, x4, post);
    WordReads(pre, w1, x2 + x3 + x4 + post);
    WordReads(pre + x1, w2, x3 + x4 + post);
    WordReads(pre + x1 + x2, "=", x4 + post);
    WordReads(pre + x1 + x2 + x3, w4, post);
  }

  lemma RenderStarts(atoms: Atoms)
    ensures Render(atoms) == "" || Render(atoms)[0] == ' '
  {
  }

  /** Parsing gives back the atoms that were rendered. */
  lemma {:induction false} ParseInvertsRender(pre: string, atoms: Atoms)
    ensures Parse(pre + Render(atoms), |pre|) == Just(atoms)
    decreases atoms
  {
    if atoms.More? {
      var a, rest := atoms.head, atoms.tail;
      RenderStarts(rest);
      AtomReads(pre, a, Render(rest));
      ParseInvertsRender(pre + AtomText(a), rest);
      AppendAssociative(pre, AtomText(a), Render(rest));
    }
  }

  // ---- Evaluation ----

  /** SQL's truth values, and the failure of a malformed query. */
  datatype Logic = True | False | Unknown | Invalid

  const OID_LIMIT: nat := 0x1_0000_0000

  /** An oid column holds 32 bits. */
  type Oid = n: nat | n < OID_LIMIT

  /** One row of pg_stat_activity; any column may be NULL. An address is a number. */
  datatype Row = Row(
    datid: Maybe<Oid>, datname: CharPtr, usesysid: Maybe<Oid>, usename: CharPtr,
    clientAddr: Maybe<nat>, clientHostname: CharPtr, waiting: Maybe<bool>)

  /** The server's reading of an address, if the text is one. */
  type Inet = string -> Maybe<nat>

  function Equal<T(==)>(column: Maybe<T>, v: T): Logic {
    if column.Nothing? then Unknown else if column.value == v then True else False
  }

  function EqualText(column: CharPtr, v: string): Logic {
    if column.Null? then Unknown else if column.text == v then True else False
  }

  /** The text of a parameter as an oid; a number that does not fit fails the query. */
  function EqualOid(column: Maybe<Oid>, v: string): Logic {
    if v == "" || !AllDigits(v) || Value(v) >= OID_LIMIT then Invalid else Equal(column, Value(v))
  }

  function EqualAddress(column: Maybe<nat>, v: string, inet: Inet): Logic {
    if inet(v).Nothing? then Invalid else Equal(column, inet(v).value)
  }

  /** The columns of pg_stat_activity: host names came with 9.1, `waiting` with 8.2 and it went with 9.6. */
  predicate HasColumn(version: int, column: Column) {
    (column.ClientHostname? ==> 90100 <= version) && (column.Waiting? ==> 80200 <= version < 90600)
  }

  function EvalAtom(a: Atom, args: seq<string>, row: Row, version: int, inet: Inet): Logic {
    if !HasColumn(version, a.column) then Invalid
    else match a.operand
    case Truth(b) => if a.column.Waiting? then Equal(row.waiting, b) else Invalid
    case InetParam(n) =>
      if 0 < n <= |args| && a.column.ClientAddr? then EqualAddress(row.clientAddr, args[n - 1], inet) else Invalid
    case Param(n) =>
      if !(0 < n <= |args|) then Invalid
      else
        match a.column
        case DatId => EqualOid(row.datid, args[n - 1])
        case DatName => EqualText(row.datname, args[n - 1])
        case UseSysId => EqualOid(row.usesysid, args[n - 1])
        case UseName => EqualText(row.usename, args[n - 1])
        case ClientAddr => EqualAddress(row.clientAddr, args[n - 1], inet)
        case ClientHostname => EqualText(row.clientHostname, args[n - 1])
        case Waiting => Invalid
  }

  function Conjunction(x: Logic, y: Logic): Logic {
    if x.Invalid? || y.Invalid? then Invalid
    else if x.False? || y.False? then False
    else if x.Unknown? || y.Unknown? then Unknown
    else True
  }

  function Eval(atoms: Atoms, args: seq<string>, row: Row, version: int, inet: Inet): Logic {
    match atoms
    case NoAtoms => True
    case More(a, rest) => Conjunction(EvalAtom(a, args, row, version, inet), Eval(rest, args, row, version, inet))
  }

  /** The first connector is `first` and every later one is AND. */
  predicate Connected(atoms: Atoms, first: Connector) {
    match atoms
    case NoAtoms => true
    case More(a, rest) => a.connector == first && Connected(rest, And)
  }

  /** The value of clause text that continues a query with (`first` is AND) or without a WHERE. */
  function EvalText(text: string, first: Connector, args: seq<string>, row: Row, version: int, inet: Inet): Logic {
    var parsed := Parse(text, 0);
    if parsed.Just? && Connected(parsed.value, first) then Eval(parsed.value, args, row, version, inet) else Invalid
  }

  function Connectors(atoms: Atoms): seq<Connector> {
    match atoms
    case NoAtoms => []
    case More(a, rest) => [a.connector] + Connectors(rest)
  }

  /** The connectors one by one: `first` at the front, AND everywhere else. */
  lemma {:induction false} ConnectedMeaning(atoms: Atoms, first: Connector)
    ensures Connected(atoms, first) <==>
            forall i | 0 <= i < |Connectors(atoms)| :: Connectors(atoms)[i] == if i == 0 then first else And
  {
    if atoms.More? {
      var cs, rest := Connectors(atoms), Connectors(atoms.tail);
      ConnectedMeaning(atoms.tail, And);
      assert cs[0] == atoms.head.connector && |cs| == |rest| + 1;
      if Connected(atoms, first) {
        forall i | 0 <= i < |cs| ensures cs[i] == if i == 0 then first else And {
          if i > 0 {
            assert cs[i] == Connectors(atoms.tail)[i - 1] == And;
          }
        }
      } else if forall i | 0 <= i < |cs| :: cs[i] == if i == 0 then first else And {
        forall i | 0 <= i < |rest| ensures rest[i] == if i == 0 then And else And {
          assert rest[i] == cs[i + 1];
        }
        assert false;
      }
    }
  }

  /** Wrongly connected text is refused. */
  lemma UnconnectedIsRefused(atoms: Atoms, first: Connector, args: seq<string>, row: Row, version: int, inet: Inet)
    requires !Connected(atoms, first)
    ensures EvalText(Render(atoms), first, args, row, version, inet) == Invalid
  {
    ParseInvertsRender("", atoms);
    assert "" + Render(atoms) == Render(atoms);
  }

  /** Rendered text of well-connected atoms has the value of the atoms. */
  lemma EvalTextOfRender(atoms: Atoms, first: Connector, args: seq<string>, row: Row, version: int, inet: Inet)
    requires Connected(atoms, first)
    ensures EvalText(Render(atoms), first, args, row, version, inet) == Eval(atoms, args, row, version, inet)
  {
    ParseInvertsRender("", atoms);
    assert "" + Render(atoms) == Render(atoms);
  }

  /** The placeholders of a clause, left to right. */
  function Placeholders(atoms: Atoms): seq<nat> {
    match atoms
    case NoAtoms => []
    case More(a, rest) => (if a.operand.Truth? then [] else [a.operand.n]) + Placeholders(rest)
  }

  // ---- Words in front of a text ----

  /** What follows `literal`, if the text starts with it. */
  function Skip(s: string, literal: string): Maybe<string> {
    if |literal| <= |s| && s[..|literal|] == literal then Just(s[|literal|..]) else Nothing
  }

  lemma SkipReads(literal: string, post: string)
    ensures Skip(literal + post, literal) == Just(post)
  {
    assert (literal + post)[..|literal|] == literal && (literal + post)[|literal|..] == post;
  }

  /** Texts that part at byte `i` do not start each other's continuations. */
  lemma SkipFails(s: string, literal: string, i: nat)
    requires i < |s| && i < |literal| && s[i] != literal[i]
    ensures Skip(s, literal) == Nothing
  {
    if |literal| <= |s| {
      assert s[..|literal|][i] == s[i];
    }
  }
}
