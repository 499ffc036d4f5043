/** The exactly sized connection-string builder of src/pg_connect.c. */
module ConnStrings {
  import opened CStrings
  import opened Buffers

  const DBNAME := "dbname="
  const DEFAULT_CONN_STRING := Str("")
  const DEFAULT_CONN_DBNAME := Null

  /** `conn dbname=db`, without `conn` and its space when `conn` is blank. */
  function ConnString(connstring: CharPtr, dbname: CharPtr): string {
    (if IsBlank(connstring) then "" else connstring.text + " ") + DBNAME + TextOf(dbname)
  }

  function BufferLength(connstring: CharPtr, dbname: CharPtr): nat {
    |TextOf(connstring)| + |TextOf(dbname)| + 9
  }

  /** For one fixed connection string, different database names give different results. */
  lemma ConnStringInjective(connstring: CharPtr, a: CharPtr, b: CharPtr)
    requires ConnString(connstring, a) == ConnString(connstring, b)
    ensures TextOf(a) == TextOf(b)
  {
    var pre := (if IsBlank(connstring) then "" else connstring.text + " ") + DBNAME;
    assert TextOf(a) == (pre + TextOf(a))[|pre|..];
    assert TextOf(b) == (pre + TextOf(b))[|pre|..];
  }

  lemma ConnStringIsCString(connstring: CharPtr, dbname: CharPtr)
    requires IsCString(TextOf(connstring)) && IsCString(TextOf(dbname))
    ensures IsCString(ConnString(connstring, dbname))
  {
  }

  function FirstPart(connstring: CharPtr): CharPtr {
    if IsBlank(connstring) then DEFAULT_CONN_STRING else connstring
  }

  function SpacePart(connstring: CharPtr): CharPtr {
    if IsBlank(connstring) then Null else Str(" ")
  }

  function LastPart(dbname: CharPtr): CharPtr {
    if IsBlank(dbname) then DEFAULT_CONN_DBNAME else dbname
  }

  /** The four parts in a row are the connection string, and they fit. */
  lemma PartsFit(connstring: CharPtr, dbname: CharPtr)
    requires IsCString(TextOf(connstring)) && IsCString(TextOf(dbname))
    ensures var s1, s2, s4 := TextOf(FirstPart(connstring)), TextOf(SpacePart(connstring)), TextOf(LastPart(dbname));
            && IsCString(s1) && IsCString(s2) && IsCString(DBNAME) && IsCString(s4)
            && ((s1 + s2) + DBNAME) + s4 == ConnString(connstring, dbname)
            && |s1| + |s2| + |DBNAME| + |s4| < BufferLength(connstring, dbname)
  {
    if IsBlank(connstring) {
      assert "" + "" + DBNAME + TextOf(dbname) == "" + DBNAME + TextOf(dbname);
    }
  }

  /**
  Four concatenations through a moving cursor into a zeroed buffer. No write
  leaves the buffer, and it is filled to the last byte when `connstring` is not
  blank.
  */
  method BuildConnstring(connstring: CharPtr, dbname: CharPtr) returns (res: array<char>)
    requires IsCString(TextOf(connstring)) && IsCString(TextOf(dbname))
    ensures fresh(res) && res.Length == BufferLength(connstring, dbname)
    ensures TextAt(res[..], 0) == ConnString(connstring, dbname)
    ensures |ConnString(connstring, dbname)| + 1 == if IsBlank(connstring) then res.Length - 1 else res.Length
  {
    var bufferlen :=
      (if connstring.Null? then 0 else |connstring.text|)
      + (if dbname.Null? then 0 else |dbname.text|)
      + 9;
    res := new char[bufferlen](_ => NUL);
    assert res[..] == Written("", bufferlen);
    PartsFit(connstring, dbname);
    ghost var s1, s2 := TextOf(FirstPart(connstring)), TextOf(SpacePart(connstring));
    assert "" + s1 == s1;
    var c := Append(res, 0, FirstPart(connstring), "");
    c := Append(res, c, SpacePart(connstring), s1);
    c := Append(res, c, Str(DBNAME), s1 + s2);
    c := Append(res, c, LastPart(dbname), s1 + s2 + DBNAME);
    ConnStringIsCString(connstring, dbname);
    WrittenReads(ConnString(connstring, dbname), bufferlen);
  }
}
