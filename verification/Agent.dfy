/** The Zabbix agent request: an item key and its parameters. */
module Agent {
  import opened CStrings

  const PARAM_CONN_STRING := 0
  const PARAM_DBNAME := 1
  const PARAM_FIRST := 2

  datatype AgentRequest = AgentRequest(key: string, params: seq<CharPtr>)

  /** `get_rparam`: NULL beyond the last parameter. */
  function GetRparam(request: AgentRequest, n: nat): CharPtr {
    if n < |request.params| then request.params[n] else Null
  }

  function ConnParam(request: AgentRequest): CharPtr {
    GetRparam(request, PARAM_CONN_STRING)
  }

  function DbParam(request: AgentRequest): CharPtr {
    GetRparam(request, PARAM_DBNAME)
  }

  /** The connection parameters are C strings. */
  predicate ConnParamsOk(request: AgentRequest) {
    IsCString(TextOf(ConnParam(request))) && IsCString(TextOf(DbParam(request)))
  }
}
