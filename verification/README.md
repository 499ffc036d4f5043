# Verified model of libzbxpgsql

libzbxpgsql is a Zabbix agent module, written in C, that answers monitoring
items by querying PostgreSQL. This project is a Dafny model of the algorithms
inside it, with proofs of what they keep and what they compute. `dafny verify
dfyconfig.toml` checks the whole project.

C strings are sequences of bytes without NUL; `strcmp` orders them as unsigned
bytes (sections 7.24.4 and 7.24.4.2 of ISO/IEC 9899:2011). Code that updates
memory in place is modelled in place: arrays, cursors, classes with mutable
fields. The PostgreSQL client library is an arbitrary server behind a log of
events, so a statement about it holds for every sequence of outcomes.

| module | what it models |
|---|---|
| `CStrings` | nullable strings, `strcmp`, `strncmp` |
| `Sequences` | two facts about concatenation |
| `StableSort` | the order insertion produces, a definition of stable sorting that does not mention it, inversions, the association list |
| `QueryIndex` | the named-query index of `src/pg_config.c`: two parallel arrays, a moving hole, binary search |
| `Buffers` | `strcat2`, `snprintf`, and the multi-strings of `src/pg_discovery.c` |
| `ConnStrings` | `build_connstring` |
| `Params` | the parameter vector of `src/pg_params.c`, with the allocator's live blocks |
| `Libpq` | server, connections, event log; `pg_connect`, `pg_exec` |
| `Agent` | the item request and its parameters |
| `Discovery` | `pg_get_databases`, the row loop, `pg_get_discovery_wide` |
| `Queries` | `pg_scalar` with `pg_get_result`, `pg_get_discovery`, `PG_QUERY` |
| `Decimals`, `Numerals` | decimal digits, and the integer branch of `pg_get_result` |
| `Clauses`, `ActivityFilters` | the clause language (text, parser, value on a row), and the compiler `build_activity_clause` |
| `ActivityQueries`, `Backends` | the server's reading of the two queries on pg_stat_activity, in its own words; `PG_BACKENDS_COUNT` and `PG_QUERIES_LONGEST`, which print them |
| `Ratios`, `HitRatios` | `pg_get_percentage`; `PG_DB_BLKS_RATIO`, its query text read back and its answers |
| `Versions`, `VersionOrder` | the `sed` and `sort` pipelines of `m4/ax_compare_version.m4` |
| `LongVersions`, `VersionZeros` | the same for numbers of any length; trailing zeros and missing components |

## Main results

- Loading a `queries` group leaves the stable `strcmp` sort of the configured
  pairs in the slots, after exactly n(n + 1)/2 + inversions runs of the shifting
  loop's body. At every moment in between, the slot about to be written is NULL
  in both arrays and the live pairs are unchanged.
- From the configuration file to the answer: after loading a group of distinct names,
  looking a name up gives the string beside it, and NULL for any other, within
  floor(log2 n) + 1 comparisons.
- A multi-string packed from any list of names is walked back to the names
  before the first empty one, and to all of them if none is empty.
- Whatever the server does, wide discovery holds at most one connection, finishes
  each exactly once, and succeeds exactly when every step does; its result is then
  the concatenation of every database's row objects.
- The activity clause parses back to the intended atoms, its placeholders are in
  step with the bound values, and on every row its value is true exactly when
  every requested filter holds, NULL columns included. Read back from their text,
  the two queries built around it count the matching backends and find their
  longest-running query.
- Padding versions to four digits refines component-wise comparison; for every two
  versions, of numbers of any length, there is an exact condition under which each
  of `lt`, `gt`, `le`, `ge` and `eq` is right.

## Where the code does less than its documentation or name says

Each is stated with a concrete input and with the exact condition.

- `lt`: `m4/ax_compare_version.m4:45-48` lists 3.15 `lt` 3.15.8 as true. The first
  substitution on line 116 rewrites the prefix of the other line, so the verdict is
  not "true" (`VersionOrder.LtMissesLongerVersion`). For numbers of at most four
  digits `lt` is right if and only if the first version is not a proper prefix of the
  second (`VersionOrder.LtIsRightIff`).
- The variable is documented as always "true" or "false" (lines 39-41). After 3.15
  `lt` 3.15.8 it is "false0008" (`VersionOrder.OutputIsNeither`). It is neither word if
  and only if `lt` or `ge` meets a proper prefix (`VersionOrder.OutputIsBooleanIff`, and
  `VersionOrder.OutputIsBoolean` for numbers of any length).
- The empty string is documented as version 0 (lines 64-66). That holds for `eq`, not
  for `ge`, `gt` and `le` (`VersionZeros.EmptyIsZeroOnlyForEq`).
  `VersionZeros.MissingIsZeroIff` says for each ordered operator when it takes missing
  components for zero.
- Numbers of five digits are compared as text: 10000 is not `ge` 9999
  (`LongVersions.FiveDigitsLoseOrder`). `LongVersions.VerdictIsRightIff` gives, for every
  two versions, the condition under which an ordered operator is right: the first padded
  groups that differ are equally long, or their fronts decide as the numbers do (and `lt`
  still needs the first version not to run out);
  `LongVersions.NumbersRightIff` puts it in terms of two numbers.
- For the same reason `eq` holds of 12345.6 and 1234.50006
  (`VersionZeros.EqConfusesLongNumbers`); `VersionZeros.EqIsRightIff` is the condition.
- The conversion commented as handling E notation (`src/libzbxpgsql.c:407`) loses the
  exponent when the mantissa has no fraction: 5e+03 becomes 5
  (`Numerals.BareExponentIsLost`). The result is the integer part if and only if that is
  not the case with a non-zero digit and exponent (`Numerals.ConversionLaw`).
- `is_oid` is documented as recognising a valid oid (`src/libzbxpgsql.c:553-559`), but
  accepts any run of digits; and a filter may need a column that the server lacks: a
  host name before 9.1, as `src/pg_backends.c:103` remarks, and the waiting filter before
  8.2 and from 9.6 on. The server refuses the query if and only if a filter is a number of
  2^32 or more or needs such a column (`ActivityFilters.ClauseMeaning`,
  `Backends.CountMeaning`, `Backends.LongestMeaning`). Inputs:
  `Backends.LargeOidIsRefused`, `HostNameIsRefused`, `WaitingIsRefused`.
- The integer conversion takes a minus sign modulo 2^64: -1 becomes
  18446744073709551615 (`Numerals.MinusOneWraps`). `Numerals.NegativeLaw` gives the result
  for every negative number, and says that it is the integer part if and only if that is 0
  and the number starts with 0.
- Bound parameter copies are released by `pg_exec` alone (`src/pg_backends.c:154`:
  "freed later in pg_exec"). When no command is executed they stay allocated: a refused
  connection, an unsupported item or waiting filter, and for `PG_QUERIES_LONGEST`, which
  binds before it probes the version, a failed probe. The contracts of `Queries.PgQuery`,
  `Backends.PgBackendsCount`, `Backends.PgQueriesLongest`, `Ratios.PgGetPercentage` and
  `HitRatios.PgDbBlksRatio` give the exact condition; `Queries.RefusedQueryKeepsCopy` is a run.

## Model

| member | source | states |
|---|---|---|
| CStrings.LessIsLexicographic | src/pg_config.c:58 | `strcmp` is decided at the first byte where the strings part, bytes compared as unsigned; it is 0 only for equal strings, and its sign flips when the arguments are exchanged |
| CStrings.LessIsStrictTotalOrder | src/pg_config.c:58 | the order of the index is irreflexive, asymmetric, transitive and total |
| CStrings.StrncmpMeaning | src/pg_config.c:157 | `strncmp` with a count is equality or agreement on the first `n` bytes, so "queries" with 8 is an exact test, and 5 of "string" a prefix test |
| StableSort.InsertAtStop | src/pg_config.c:57-67 | insertion puts the new pair just right of the last name not greater than it |
| StableSort.InsertKeepsSorted | src/pg_config.c:55-70 | one insertion keeps the names sorted |
| StableSort.InsertAllIsStableSort | src/pg_config.c:119-130 | inserting all pairs in file order sorts them by name and keeps equal names in file order, for every list |
| StableSort.StableSortIsPermutation | src/pg_config.c:119-130 | such a list is a permutation of the configured pairs, each name still with its query |
| StableSort.StableSortIsUnique | src/pg_config.c:119-130 | sortedness and order of equal names determine the list completely |
| StableSort.AssocMeaning | src/pg_config.c:83-102 | the reference lookup misses exactly the names not configured; with distinct names it gives the configured query |
| StableSort.CountGreaterAfterStop | src/pg_config.c:58-64 | in a sorted list the scan passes exactly the names greater than the new one |
| StableSort.InversionsGrow | src/pg_config.c:55-70 | each new entry adds one inversion per earlier, strictly greater name |
| QueryIndex.ShiftSlot | src/pg_config.c:59-62 | one run of the loop body moves a slot right, into a slot that is NULL in both arrays, and leaves NULL behind; nothing else changes |
| QueryIndex.ShiftHole | src/pg_config.c:58-64 | whatever the arrays hold, one run moves the hole one place left and keeps the order of everything else |
| QueryIndex.NamedQueries.OpenHole | src/pg_config.c:57-64 | the loop stops where the specification's scan stops, with the hole just right of it; the recorded states are exactly the hole's positions from the far end |
| QueryIndex.NamedQueries.AddNamedQuery | src/pg_config.c:55-70 | the index of the old pairs becomes the index of the old pairs and the new one; the number of shifts is the free slots plus the strictly greater names |
| QueryIndex.InsertionStep | src/pg_config.c:57-67 | dropping the pair into the hole gives, slot for slot and in both arrays, the index of the longer configuration |
| QueryIndex.InsertionNeverOverwrites | src/pg_config.c:57-67 | at every moment of every insertion the slot to be written is NULL in both arrays, indices stay within query_count + 1, and the live pairs are those stored before, in order |
| QueryIndex.HoleKeepsLivePairs | src/pg_config.c:58-64 | a hole anywhere in the arrays hides no live pair and reorders none |
| QueryIndex.LoadedIsStableSort | src/pg_config.c:115-132 | after a full load the slots read as the stable sort of the configuration and slot query_count is NULL |
| QueryIndex.LoadedMeaning | src/pg_config.c:115-132 | the same of the two arrays themselves, in every loaded state |
| QueryIndex.LoadCostLaw | src/pg_config.c:119-130 | the cost of a load is n(n + 1)/2 plus the number of inversions |
| QueryIndex.NamedQueries.ReadConfigQueries | src/pg_config.c:104-133 | succeeds exactly for groups of strings, then holds exactly the group's pairs, after exactly the cost's number of shifts; anything but a group changes nothing |
| QueryIndex.NamedQueries.LoadEntries | src/pg_config.c:119-132 | the loop over the entries: it ends with exactly the group's pairs after exactly the cost's number of shifts, or stops at an entry that is no string |
| QueryIndex.NamedQueries.ReadEntry | src/pg_config.c:120-129 | a string entry goes in, any other is refused; the shifts are those the cost function adds |
| QueryIndex.NamedQueries.ReadConfig | src/pg_config.c:151-166 | succeeds exactly when every setting is a `queries` group of strings, then holds the last one's pairs; an empty file changes nothing |
| QueryIndex.NamedQueries.ReadSetting | src/pg_config.c:157-163 | any other name is refused |
| QueryIndex.LoadableFileMeaning | src/pg_config.c:153-164 | a file is loadable exactly when each of its settings is a group named queries whose members are all strings |
| QueryIndex.GroupPairsMeaning | src/pg_config.c:119-128 | the i-th pair's name is the i-th member's name, its query that member's string |
| QueryIndex.LoadAndLookUp | src/pg_config.c:83-133 | load a group, look a name up: an answer is a string beside that name, NULL exactly for a name of no member; for distinct names it is the string beside it |
| QueryIndex.NamedQueries.constructor | src/pg_config.c:83-102 | before any file is read the index is loaded with nothing and may be searched |
| QueryIndex.NamedQueries.GetQueryByName | src/pg_config.c:83-102 | a result is a query configured under the key; NULL exactly if there is none; for distinct names the association list's answer; at most `Halvings(n)` comparisons; the midpoint sum is at most 2n - 2, reached by keys above every name, so it fits an int for n up to 2^30 |
| QueryIndex.NamedQueries.Probe | src/pg_config.c:91-93 | the probed slots are not NULL; a comparison bounds how many names lie on either side, and a hit is a configured pair |
| QueryIndex.HalvingsIsLog | src/pg_config.c:89-99 | the bound on comparisons is floor(log2 n) + 1 |
| QueryIndex.HalvingStep | src/pg_config.c:90 | the midpoint is in range, and either part left after a probe can be halved at least once less |
| QueryIndex.PeakStep | src/pg_config.c:89-97 | the bound on the midpoint sums is kept by every probe, and met once the search runs past the last name |
| Buffers.Strcat2 | src/libzbxpgsql.c:603-616 | the source and a NUL overwrite the bytes from the destination's NUL on and no others; the result points at the new NUL; NULL arguments change nothing |
| Buffers.PackNames | src/pg_discovery.c:36-50 | the buffer has the measured length 1 + sum(len + 1) and holds exactly the joined names, each with its NUL, and one more NUL |
| Buffers.MeasureNames | src/pg_discovery.c:37-40 | the first loop computes that length |
| Buffers.PackName | src/pg_discovery.c:49 | one copy stays inside the buffer and advances the cursor past the name's NUL |
| Buffers.ClippedMeaning | src/pg_discovery.c:126 | a print keeps the whole text if it and its NUL fit, its first count - 1 bytes otherwise |
| Buffers.PackedTwo | src/pg_discovery.c:9 | two names make the documented multi-string: each with its NUL, and one more |
| Buffers.PackedRoundTrip | src/pg_discovery.c:36-50 | for every list of names, walking what was packed yields the names before the first empty one; the cursor rests on a NUL inside the buffer, on the last byte if no name is empty |
| Buffers.NameAt | src/pg_discovery.c:202 | where each name starts in the buffer, what is read there and where the next one starts |
| ConnStrings.BuildConnstring | src/pg_connect.c:15-35 | for NULL and empty arguments too: conn, a space and dbname=db, without conn and space if conn is blank; never outside len(conn) + len(db) + 9 bytes, and exactly full if conn is not blank |
| ConnStrings.ConnStringInjective | src/pg_connect.c:28-32 | for one connection string, different database names give different results |
| Params.ParamLen | src/pg_params.c:22-34 | counts the entries before the NULL; 0 for the NULL vector |
| Params.ParamAppend | src/pg_params.c:36-59 | a non-empty string is copied to the end, NULL and empty ones change nothing; the allocator gains exactly the vector's new blocks and loses the old array |
| Params.ParamFree | src/pg_params.c:61-72 | every entry and the vector are live when released, and released once; nothing else is |
| Params.ParamsFrom | src/pg_query.c:62-64 | from NULL, the vector is the non-empty arguments in order and NULL if there are none |
| Params.AppendAllThenFree | src/pg_params.c:22-72 | appending any arguments, then freeing, leaves the allocator as it was |
| Params.NonEmptyByPosition | src/pg_query.c:62-64 | there is one entry for each non-empty argument and no other, at the place its non-empty predecessors leave |
| Params.NonEmptyIndex | src/pg_query.c:62-64 | the j-th kept argument is the one preceded by j - 1 non-empty ones: what $j is bound to |
| Libpq.Client.PgConnect | src/pg_connect.c:50-77 | a working connection, or NULL with the handle finished |
| Libpq.Client.PgExec | src/libzbxpgsql.c:272-291 | the command runs with $j bound to the j-th entry; the vector's blocks are released, no others |
| Libpq.IdleMeansBalanced | src/pg_discovery.c:202-256 | a run that ends with no connection held never held two and finished each opened connection exactly once |
| Discovery.PgConnectRequest | src/pg_connect.c:96-110 | connects with the string built from the request's own parameters |
| Discovery.ConnInfoByPosition | src/pg_connect.c:102-104 | parameter 0 is the connection string, parameter 1 the database |
| Discovery.ListedMeaning | src/pg_discovery.c:36-50 | the i-th name listed is the first cell of the answer's i-th row |
| Discovery.PgGetDatabases | src/pg_discovery.c:11-59 | one session; NULL exactly if connecting or listing fails or lists nothing, otherwise a fresh buffer holding the packed names |
| Discovery.UpperInPlace | src/pg_discovery.c:127-128 | the text becomes its upper case, byte for byte; its NUL and what follows stay |
| Discovery.MacroKeepsName | src/pg_discovery.c:125-128 | the key is `{#NAME}` in upper case for every column name that fits the buffer |
| Discovery.MacroLetters | src/pg_discovery.c:126-128 | letter by letter: a to z become A to Z, every other byte stays, between the braces |
| Discovery.EmitRows | src/pg_discovery.c:120-134 | appends one object per row to those emitted before |
| Discovery.EveryCellKeptOnce | src/pg_discovery.c:120-134 | every column of every row appears exactly once, at its position, under its own key |
| Discovery.PgGetDiscoveryWide | src/pg_discovery.c:175-261 | the events, the verdict and the objects are those of the specification, for every server |
| Discovery.QueryEach | src/pg_discovery.c:202-244 | the loop over the cursor does the specified visits in packed order and stops at the first failure |
| Discovery.VisitDatabase | src/pg_discovery.c:203-243 | one iteration is one session, with its row objects appended |
| Discovery.CursorFinds | src/pg_discovery.c:202 | after k names the cursor is inside the buffer, on the next name or on the final NUL |
| Discovery.ChainSucceedsIff | src/pg_discovery.c:202-244 | the visits succeed exactly when every connection and every query does, with every database's objects in order |
| Discovery.WideSucceedsIff | src/pg_discovery.c:193-251 | wide discovery succeeds exactly when listing yields names and every step succeeds; its objects are the concatenation over the names the cursor reads |
| Discovery.WideByRows | src/pg_discovery.c:193-251 | with n rows before the first whose first cell is empty, success is a listing with rows and, for each of those n, a connection to the row's first cell and a query that succeed |
| Discovery.WideVisitsRow | src/pg_discovery.c:202-243 | the k-th visit opens a connection to the first cell of the k-th row, runs the query and finishes it |
| Discovery.ChainIsBalanced | src/pg_discovery.c:202-256 | however far the visits get, no connection is left held |
| Discovery.WideIsBalanced | src/pg_discovery.c:23-256 | for every server, at most one connection at any moment, each finished exactly once, none left |
| Queries.RunQuery | src/libzbxpgsql.c:318-355 | one session; a refused connection executes nothing and leaves the vector allocated |
| Queries.PgScalar | src/libzbxpgsql.c:318-355 | the first column of the first row, cut to the buffer; NULL exactly on a failed or empty query |
| Queries.ScalarMeaning | src/libzbxpgsql.c:334-346 | the value is the first row's first cell, cut to 2047 bytes; there is none exactly for a failed or empty answer |
| Queries.PgGetResult | src/libzbxpgsql.c:385-433 | that value as the requested type; failure exactly if there is none; when the vector is released |
| Queries.ResultMeaning | src/libzbxpgsql.c:399-425 | for every number a server prints: as a string its text, as a double the number it denotes, negative after a minus sign, as an integer its integer part if and only if no exponent is lost |
| Queries.NegativeResultMeaning | src/libzbxpgsql.c:405-414 | as an integer after a minus sign: 2^64 less the number before its point or exponent |
| Queries.PgGetDiscovery | src/pg_discovery.c:84-150 | the objects of the query's rows; failure exactly on a failed query |
| Queries.ItemMeaning | src/pg_query.c:66-81 | which keys select which kind of result: exactly those that go on with strin, integer, double or discovery after the ninth byte |
| Queries.RegisteredItems | src/pg_query.c:66-81 | the four documented keys select the four kinds of result |
| Queries.UserParamsByPosition | src/pg_query.c:62-64 | the values bound are the non-empty ones of the parameters 3, 4 and so on, in that order |
| Queries.AnswerMeaning | src/pg_query.c:66-81 | nothing on failure, the first cell as the item's type, or for discovery an object for each row with each cell under its column's key |
| Queries.RefusedQueryKeepsCopy | src/pg_query.c:60-69 | one parameter and a server that refuses the connection: the copy is not released |
| Queries.PgQuery | src/pg_query.c:36-86 | the configured query or else the literal text is run once with the non-empty later parameters bound in order; the answer is that of the item's kind; nothing is run for a blank query or unknown kind; when the bound copies are released |
| Numerals.ConversionLaw | src/libzbxpgsql.c:405-414 | for every digits, digits.digits and d.ddde+-XX text of a number below 2^64: the result is its integer part if and only if no exponent is lost |
| Numerals.NegativeLaw | src/libzbxpgsql.c:405-414 | every printed number after a minus sign converts to 2^64 less the number before its point or exponent, 0 for 0, and saturates; that is the integer part if and only if both are 0 |
| Numerals.MinusOneWraps | src/libzbxpgsql.c:412 | -1 converts to 18446744073709551615 |
| Numerals.DoubleLaw | src/libzbxpgsql.c:416-418 | every printed number is read as the number it denotes, with or without a fraction before the exponent |
| Numerals.NegativeDoubleLaw | src/libzbxpgsql.c:416-418 | after a minus sign it is read as the negative of that number |
| Numerals.SignIsRead | src/libzbxpgsql.c:409 | a plus sign in front changes nothing, a minus sign negates |
| Numerals.SpaceIsSkipped | src/libzbxpgsql.c:409 | white space in front changes nothing |
| Numerals.SpaceIsSkippedByStrtoull | src/libzbxpgsql.c:412 | nor for the integer conversion |
| Numerals.EitherMark | src/libzbxpgsql.c:409 | an exponent may be marked by either letter |
| Numerals.SpecialByFirstByte | src/libzbxpgsql.c:418 | which texts may be infinite, no number or hexadecimal, by their first bytes |
| Numerals.SpecialTexts | src/libzbxpgsql.c:418 | NaN, Infinity and -Infinity are among them |
| Numerals.ConversionInvertsPrinting | src/libzbxpgsql.c:412 | every printed n below 2^64 is read back, larger ones saturate |
| Numerals.BareExponentIsLost | src/libzbxpgsql.c:407-413 | 5e+03 converts to 5 |
| Numerals.MantissaIsScaled | src/libzbxpgsql.c:409 | reading all digits as one number and moving the point gives the mantissa |
| Decimals.DigitsMeaning | src/pg_backends.c:85 | printing a number and reading it back is the identity |
| Clauses.ParseInvertsRender | src/pg_backends.c:84-111 | the text of any list of atoms parses back to it, wherever it stands |
| Clauses.ConnectedMeaning | src/pg_backends.c:72-121 | atoms are joined correctly when the first has the chosen connector and every other AND |
| Clauses.UnconnectedIsRefused | src/pg_backends.c:72-121 | text joined otherwise is refused |
| Clauses.EvalTextOfRender | src/pg_backends.c:84-111 | the value of the text is the value of the atoms, if they are joined correctly |
| ActivityFilters.IsOidScan | src/libzbxpgsql.c:560-572 | 1 exactly for one or more digits |
| ActivityFilters.EmitFilter | src/pg_backends.c:80-122 | one filter binds its value and prints its atom at the cursor; refused exactly for a waiting filter other than true and false |
| ActivityFilters.BuildActivityClause | src/pg_backends.c:67-128 | the buffer reads as the compiled clause and the vector holds the bound values; fails exactly for an unsupported waiting filter, leaving what was bound with the caller |
| ActivityFilters.FormattedIsAtom | src/pg_backends.c:85-111 | each format string prints the atom it stands for |
| ActivityFilters.CompiledConnected | src/pg_backends.c:72-121 | the first connector is the one chosen by has_clause and every later one is AND |
| ActivityFilters.PlaceholdersInStep | src/pg_backends.c:82-105 | the placeholders read $1 to $k from left to right, one for each bound value |
| ActivityFilters.BoundIsNonEmpty | src/pg_backends.c:78-105 | the bound values are the non-empty database, user and client filters in order |
| ActivityFilters.CompiledLength | src/pg_backends.c:84-120 | the clause is at most 136 bytes, far below the size argument that is never reduced |
| ActivityFilters.ClauseMeaning | src/pg_backends.c:78-123 | the clause text with the bound values is refused exactly when a number does not fit an oid or the server's version lacks a column that a filter needs; otherwise, on every row, it is true exactly when every non-empty filter holds |
| ActivityFilters.FormatTexts | src/pg_backends.c:85-111 | the seven texts of the source, each with its connector and placeholder |
| ActivityFilters.BuiltText | src/pg_backends.c:72-122 | the text parameter by parameter: 2 for the database, 3 for the user, 4 for the client, 5 for waiting, empty ones left out, in the source's words, the chosen connector first and AND after it, placeholders from $1 on |
| ActivityFilters.BoundByPosition | src/pg_backends.c:79-105 | the values bound are the non-empty ones of the parameters 2, 3 and 4, in that order |
| ActivityFilters.AcceptedByPosition | src/pg_backends.c:107-115 | a request is accepted exactly when parameter 5 is missing, empty, true or false |
| ActivityFilters.ServedByPosition | src/pg_backends.c:78-118 | when the server accepts the text, in terms of the parameters |
| ActivityFilters.ClauseByPosition | src/pg_backends.c:78-123 | the text's value on a row: true exactly when it is served and parameter 2 agrees with the row's database, 3 with its user, 4 with its address or host name and 5 with its waiting column, each if not empty |
| ActivityFilters.DatabaseNameMeaning | src/pg_backends.c:87 | the words about datname compare the row's database name with the bound value; NULL is unknown |
| ActivityFilters.UserNameMeaning | src/pg_backends.c:95 | those about usename its user name |
| ActivityFilters.HostNameMeaning | src/pg_backends.c:102-104 | those about client_hostname its host name, refused before 9.1 |
| ActivityFilters.OidColumnsMeaning | src/pg_backends.c:84-93 | those about datid and usesysid its oids, refused for anything but a number below 2^32 |
| ActivityFilters.AddressColumnMeaning | src/pg_backends.c:101 | those about client_addr its address |
| ActivityFilters.WaitingColumnMeaning | src/pg_backends.c:108-111 | those about waiting its flag, refused before 8.2 and from 9.6 on |
| ActivityQueries.PidReads | src/pg_backends.c:158-162 | the server knows procpid before 9.2 and pid from then on |
| ActivityQueries.PidIsRefused | src/pg_backends.c:158-162 | and refuses the other one |
| Backends.CountSqlReads | src/pg_backends.c:25 | the counting query printed for a version is read by a server of that version, which finds the clause in it |
| Backends.LongestSqlReads | src/pg_backends.c:27-49 | the same for the query for the longest-running query |
| Backends.VersionMeaning | src/libzbxpgsql.c:521-522 | an answer with the digits of n is version n |
| Backends.NoVersion | src/libzbxpgsql.c:508-528 | no answer is version 0 |
| Backends.PgBackendsCount | src/pg_backends.c:145-179 | the version probe, then the counting query with the clause for that version and its values; no count for a version of 0 or an unsupported filter; when the bound copies are released |
| Backends.CountMeaning | src/pg_backends.c:25 | read back from its text, the counting query answers with the number of other backends that are connected to a database and satisfy every filter; it is refused exactly when an oid is too large or a filter's column is missing on that version |
| Backends.PgQueriesLongest | src/pg_backends.c:285-318 | the clause first, then the version probe, then the query for that version; no result for an unsupported filter or a version of 0; when the bound copies are released |
| Backends.LongestMeaning | src/pg_backends.c:27-49 | read back from its text, that query gives the longest duration of the other backends that run a query and satisfy every filter; 0 if there is none or one of them is unknown; refused under the same condition |
| Backends.HostNameIsRefused | src/pg_backends.c:102-104 | with a client given by host name, the counting query is refused by a server of 9.0 |
| Backends.WaitingIsRefused | src/pg_backends.c:107-109 | with the waiting filter, it is refused by a server of 9.6 |
| Backends.PgVersion | src/libzbxpgsql.c:504-529 | one session; the number read, 0 if there is none |
| Backends.LargeOidIsRefused | src/libzbxpgsql.c:560-572 | 4294967296 passes `is_oid`, and the counting query with it is refused |
| Ratios.PgGetPercentage | src/libzbxpgsql.c:464-494 | runs the quotient query, with its filter's value bound, cut exactly as the two clipped prints cut it; when the bound copy is released |
| Ratios.TwoClips | src/libzbxpgsql.c:474-488 | clipping the second print to the room left equals clipping the whole text |
| Ratios.TotalIsBetweenRows | src/pg_database.c:154-173 | the quotient of the sums lies within any bounds on the quotients of the rows, a zero denominator counting as 1 |
| Ratios.TotalIsRatio | src/pg_database.c:154-162 | it lies between 0 and 1 |
| HitRatios.PgDbBlksRatio | src/pg_database.c:143-177 | without a name the query of the sums, with one the query of that database's row, the name bound; nothing is cut off; when the bound copy is released |
| HitRatios.ParseInvertsPrinting | src/libzbxpgsql.c:474-488 | the text printed for a numerator, a denominator and a filter reads back as them |
| HitRatios.TotalAnswerIsRatio | src/pg_database.c:154-162 | read back from its text, the query without a name answers with the quotient of the sums over all databases, NULL if there is none |
| HitRatios.NamedAnswerIsRatio | src/pg_database.c:164-173 | the query with a name answers with the quotient of that database's row |
| HitRatios.NamedAnswerIsOnlyRatio | src/pg_database.c:164-173 | with distinct names it answers with that quotient and nothing else |
| HitRatios.MixedIsRefused | src/libzbxpgsql.c:474-482 | sums and columns of single rows do not go together |
| HitRatios.ArgumentsMustFit | src/libzbxpgsql.c:484-490 | the values bound must be as many as the text has placeholders |
| HitRatios.TotalIsBetweenNamedAnswers | src/pg_database.c:154-173 | the answer without a name is between 0 and 1 and lies within any bounds on the answers with a name |
| Versions.PipelinePadsRuns | m4/ax_compare_version.m4:97-101 | the five substitutions together pad every run of digits to four and drop all else, for every string |
| Versions.PadIsBump | m4/ax_compare_version.m4:98-100 | one substitution adds a zero to exactly the runs of its length, neighbouring matches included |
| Versions.EncloseIsText | m4/ax_compare_version.m4:97 | the first substitution encloses each run, and empty matches add no digits |
| VersionOrder.OutputIs | m4/ax_compare_version.m4:113-129 | the exact text each ordered operator assigns, including the leftover of a matched prefix |
| VersionOrder.OrderLaw | m4/ax_compare_version.m4:113-129 | for numbers of at most four digits `ge`, `gt` and `le` are component-wise comparison with a proper prefix smaller; `lt` is that and not a prefix |
| VersionOrder.ShortOne | m4/ax_compare_version.m4:98-100 | short means one to four digits |
| VersionOrder.LtIsRightIff | m4/ax_compare_version.m4:114-117 | `lt` is component-wise comparison if and only if the first version is no proper prefix of the second |
| VersionOrder.LtMissesLongerVersion | m4/ax_compare_version.m4:46-48 | the documented example 3.15 lt 3.15.8 is not true of the code |
| VersionOrder.OutputIsBoolean | m4/ax_compare_version.m4:39-41 | the variable is "true" or "false" if and only if it is not `lt` or `ge` meeting padded text that starts the other, for numbers of any length |
| VersionOrder.OutputIsBooleanIff | m4/ax_compare_version.m4:39-41 | in terms of components: if and only if it is not `lt` or `ge` meeting a proper prefix |
| VersionOrder.OutputIsNeither | m4/ax_compare_version.m4:114-117 | after 3.15 `lt` 3.15.8 the variable is "false0008" |
| LongVersions.GroupsKeepOrder | m4/ax_compare_version.m4:97-129 | comparing groups as text is comparing their components exactly under `OrderKept` |
| LongVersions.VerdictIsRightIff | m4/ax_compare_version.m4:97-129 | for every two versions and each ordered operator, the verdict is the component-wise one if and only if the first padded groups that differ are equally long or their fronts decide the same, and for `lt` the first version does not run out before |
| LongVersions.EvenVersionsAreRight | m4/ax_compare_version.m4:97-129 | `ge`, `gt` and `le` are right for numbers of any length whose first differing groups are equally long |
| LongVersions.UnevenGroupsKeptIff | m4/ax_compare_version.m4:97-129 | groups of different length: right exactly when the shorter number is below the front of the longer, or is that front and what follows decides so |
| LongVersions.LongerSecondKeptIff | m4/ax_compare_version.m4:97-129 | the same with any zeros in front, the longer group second: by the numbers and the front, and for equal numbers by the rests, the zeros left over standing in front of one of them |
| LongVersions.LongerFirstKeptIff | m4/ax_compare_version.m4:97-129 | the same with the longer group first |
| LongVersions.BehindZeros | m4/ax_compare_version.m4:97-129 | a rest against a rest behind zeros: the zeros belong to its first group, or, with none, are smaller than anything but fewer or as many zeros |
| LongVersions.NumbersRightIff | m4/ax_compare_version.m4:97-129 | one number each, no zeros in front of more than four digits: right exactly when the one with fewer digits is not above the front of the other, nor for `lt` that front itself |
| LongVersions.LongNumbersCompareAsText | m4/ax_compare_version.m4:97-129 | numbers of four or more digits are compared as strings, for each ordered operator |
| LongVersions.FiveDigitsLoseOrder | m4/ax_compare_version.m4:97-101 | 10000 is not `ge` 9999 |
| VersionZeros.MissingIsZeroIff | m4/ax_compare_version.m4:113-129 | for each ordered operator and numbers of at most four digits, when missing components count as zero: unless the longer version just adds zeros; `lt` only if it does |
| VersionZeros.ZeroExtendedOrder | m4/ax_compare_version.m4:64-66 | the order with missing components taken for zero leaves two versions equal exactly when they are equal without their trailing zeros |
| VersionZeros.EqIsRightIff | m4/ax_compare_version.m4:152-162 | for every two versions `eq` is equality up to trailing zeros if and only if the first padded groups that differ are equally long, or one is not the front of the other with zeros making up the rest |
| VersionZeros.EqLaw | m4/ax_compare_version.m4:152-162 | for numbers of at most four digits `eq` holds exactly if the components agree once trailing zeros are dropped, the empty string included |
| VersionZeros.UnevenGroupsEqIff | m4/ax_compare_version.m4:152-162 | groups of different length, no extra zeros: `eq` is right exactly unless the shorter is the front of the longer and the rest agrees up to zeros |
| VersionZeros.UnevenGroupsWithZerosEqIff | m4/ax_compare_version.m4:152-162 | the same with any zeros in front: the same number but 0 is never recognised, and for 0 the zeros left over stand in front of the rest |
| VersionZeros.EqKeptFlips | m4/ax_compare_version.m4:152-162 | the condition does not depend on the order of the two versions |
| VersionZeros.EqConfusesLongNumbers | m4/ax_compare_version.m4:152-162 | `eq` holds of 12345.6 and 1234.50006 |
| VersionZeros.EmptyIsZeroOnlyForEq | m4/ax_compare_version.m4:64-66 | the empty string equals 0 for `eq`; it is not `ge` 0, 0 is `gt` it and not `le` it |

## Left out

- libpq, libconfig, the Zabbix JSON builder and the allocator: an arbitrary server, a list of settings, a list of objects, an allocation that always succeeds. `realloc` always moves the array.
- Reading the configuration file and finding its path, environment, logging and error texts.
- A second `queries` group: the allocation over existing arrays (`src/pg_config.c:116-117`) is taken to give fresh zeroed arrays, so the last group wins.
- Params.Realloc: copies entry by entry where the C library is called.
- `inet_pton`: `Inet` is an arbitrary partial reading of addresses, taken to be the server's `::inet` as well; what it accepts as an address is what the server can compare.
- The server's SQL beyond the row predicate, the two queries on pg_stat_activity and the quotients on pg_stat_database, whose rows have distinct or equal names but never NULL ones. Their fixed words are matched as text; that a backend is running a query, for either server version, is a field of its row. Names are compared whole, longer than the server keeps them too. A result has at least one column.
- Numerals.ConversionLaw: `strtod` without rounding; hexadecimal, infinities and locale are not covered by the laws.
- Queries.PgGetResult: `strtold` reads without rounding, and text it may read as infinite, as no number or as hexadecimal is kept as text; the cast of a double outside the range of an unsigned 64-bit integer, which C leaves undefined, is the result `OutOfRange`.
- Queries.PgQuery: for a key of no known kind the source passes the byte `request->key[9]` to a `%s` format (`src/pg_query.c:81`), which C leaves undefined; the model refuses cleanly. No registered key gets there.
- Backends.PgBackendsCount: `atol` has no width, and a version is any integer.
- QueryIndex.NamedQueries.GetQueryByName: integers are unbounded; that the one sum in the search stays within an int is stated as a bound on its peak.
- Discovery.PgGetDiscoveryWide: non-NULL parameters, which the first `pg_exec` would release, are excluded; every caller passes NULL. Result and JSON handles on its error paths are not tracked.
- ConnStrings.BuildConnstring: the width of `bufferlen` is not modelled.
- HitRatios.TotalAnswerIsRatio: counters are naturals and never NULL, and the quotient is exact.
- MAX_STRING_LEN is 2048, from the Zabbix headers, which are not part of this model.
- Loop bodies that are long in the source are methods of their own here (`OpenHole`, `ShiftHole`, `LoadEntries`, `ReadEntry`, `EmitFilter`, `VisitDatabase`, `NameUnder`, `ClauseFor`, `RunLongest`, `PrintTwice`), called where the source has them in line.
- The items that send one fixed query: the same wrappers, with nothing new to prove.
- The `ne`, `eq0` and `eqN` operators of the version macro, the shell's own escapes, and the locale of `sort`, taken to be byte order.
- Templates, build files and the other m4 macros.
