/** Requests, responses, error codes and the objects that answer them. */
module Messages {
  import opened Basics
  import opened Values
  import opened Sessions

  const PARSE_ERROR: int := -32700
  const INVALID_REQUEST: int := -32600
  const METHOD_NOT_FOUND: int := -32601
  const INVALID_PARAMS: int := -32602
  const INTERNAL_ERROR: int := -32603
  const INVALID_REFERENCE: int := -32001
  const REFERENCE_NOT_FOUND: int := -32002
  const REFERENCE_TYPE_ERROR: int := -32003

  datatype Id = Num(n: nat) | Name(s: string)

  /** What became of a call. */
  datatype Outcome = Done(v: Value) | Fail(code: int)

  /** A request without an id is a notification (section 4.1 of the JSON-RPC 2.0 Specification). */
  datatype Request = Request(id: Option<Id>, ref: string, name: string, params: Value)

  datatype Response = Response(id: Option<Id>, outcome: Outcome)

  /** The reference through which a session's own protocol methods are called. */
  const RPC_REF: string := "$rpc"

  datatype Target = Root | Object(o: ObjId)

  datatype State<W> = State(world: W, table: Table)

  /**
    The application: every method body is some deterministic transformer of the
    application's state and the session, ending in a value tree or an error.
  */
  datatype Server<!W> = Server(
    hasRoot: bool,
    run: (Target, string, Value, State<W>) -> (State<W>, Outcome),
    protocol: (string, Value, Table) -> (Table, Outcome))

  /** Find the object a request is addressed to and run the method on it. */
  function Call<W>(srv: Server<W>, ref: string, name: string, params: Value, st: State<W>): (State<W>, Outcome) {
    if ref == RPC_REF then
      var (t, out) := srv.protocol(name, params, st.table);
      (st.(table := t), out)
    else if ref != "" then
      if ref in st.table.local then srv.run(Object(st.table.local[ref]), name, params, st)
      else (st, Fail(REFERENCE_NOT_FOUND))
    else if srv.hasRoot then srv.run(Root, name, params, st)
    else (st, Fail(METHOD_NOT_FOUND))
  }
}
