/** The module base class shared by every module of the collection: the
    connection options every module accepts, the merge of a module's own
    options with them, the session fields it holds, closing the session,
    failing through `handle_error`, and the filtering of the parameters a
    module works from. */
module MssqlModuleBase {
  import opened Common

  /** A parameter value as the module receives it; `NoneValue` is Python's `None`. */
  datatype Value = NoneValue | Str(s: string) | Int(i: int) | Bool(b: bool) | StrList(items: seq<string>)

  datatype ParamType = StrType | IntType | BoolType | ListType

  /** One entry of an argument specification. */
  datatype ArgOption = ArgOption(kind: ParamType, required: bool, noLog: bool, default: Value)

  /** `LOGIN_ARGSPEC`: the connection options. */
  const LoginArgspec: map<string, ArgOption> := map[
    "login_user" := ArgOption(StrType, true, false, NoneValue),
    "login_password" := ArgOption(StrType, true, true, NoneValue),
    "login_host" := ArgOption(StrType, true, false, NoneValue),
    "login_port" := ArgOption(IntType, false, false, Int(1433))]

  const LoginKeys: set<string> := LoginArgspec.Keys

  lemma LoginKeysListed()
    ensures LoginKeys == {"login_user", "login_password", "login_host", "login_port"}
    ensures LoginArgspec["login_port"].default == Int(1433)
  {
  }

  /** `generate_argspec`: the connection options together with the module's
      own. `dict(**LOGIN_ARGSPEC, **kwargs)` raises `TypeError` when a module
      option repeats a connection option's name. */
  function GenerateArgspec(kwargs: map<string, ArgOption>): (r: Outcome<map<string, ArgOption>>)
    ensures !r.Fail?
    ensures r.Crash? <==> exists k :: k in kwargs && k in LoginKeys
    ensures r.Crash? ==> r.exception == TypeError
    ensures r.Done? ==> r.value.Keys == LoginKeys + kwargs.Keys
    ensures r.Done? ==> forall k :: k in LoginArgspec ==> r.value[k] == LoginArgspec[k]
    ensures r.Done? ==> forall k :: k in kwargs ==> r.value[k] == kwargs[k]
  {
    if exists k :: k in kwargs && k in LoginKeys then Crash(TypeError)
    else Done(LoginArgspec + kwargs)
  }

  /** The parameters a module works from: no connection option and no option
      whose value is `None`; every other option keeps its value. */
  ghost predicate DefinedNonConnection(params: map<string, Value>, r: map<string, Value>) {
    && (forall k :: k in r <==> k in params && k !in LoginKeys && params[k] != NoneValue)
    && (forall k :: k in r ==> r[k] == params[k])
  }

  /** The filter deletes some key twice: a connection option set to `None`. */
  predicate DeletesTwice(params: map<string, Value>) {
    exists k :: k in params && k in LoginKeys && params[k] == NoneValue
  }

  /** The opaque driver objects. */
  datatype Handle = Handle(id: nat)

  function HandlesOf(h: Option<Handle>): seq<Handle> {
    if h.Some? then [h.value] else []
  }

  /** The session fields of the module and the handles closed so far, in order. */
  datatype ClientState = ClientState(conn: Option<Handle>, cursor: Option<Handle>, closed: seq<Handle>)

  /** `close_client_session`: the cursor is closed before the connection, each
      only when it is set, and both are cleared. */
  function Closed(st: ClientState): (r: ClientState)
    ensures r.conn == None && r.cursor == None
    ensures |st.closed| <= |r.closed| <= |st.closed| + 2
    ensures r.closed[..|st.closed|] == st.closed
    ensures r.closed[|st.closed|..] == HandlesOf(st.cursor) + HandlesOf(st.conn)
  {
    var closed := st.closed + (HandlesOf(st.cursor) + HandlesOf(st.conn));
    assert closed[..|st.closed|] == st.closed;
    assert closed[|st.closed|..] == HandlesOf(st.cursor) + HandlesOf(st.conn);
    ClientState(None, None, closed)
  }

  /** Closing twice is the same as closing once: nothing is closed again. */
  lemma CloseIdempotent(st: ClientState)
    ensures Closed(Closed(st)) == Closed(st)
  {
    var once := Closed(st);
    assert once.closed + HandlesOf(None) + HandlesOf(None) == once.closed;
  }

  /** Every handle that was open is closed exactly once, the cursor first. */
  lemma CloseOrder(conn: Handle, cursor: Handle, closed: seq<Handle>)
    ensures Closed(ClientState(Some(conn), Some(cursor), closed)).closed == closed + [cursor, conn]
    ensures Closed(ClientState(None, None, closed)).closed == closed
  {
    assert closed + [cursor] + [conn] == closed + [cursor, conn];
    assert closed + [] + [] == closed;
  }

  class MssqlModule {
    /** `self.params`: never changed after construction. */
    const params: map<string, Value>
    const checkMode: bool
    var conn: Option<Handle>
    var cursor: Option<Handle>
    var closed: seq<Handle>
    /** Set when `fail_json` has been called. */
    var failure: Option<ModuleError>

    function State(): ClientState
      reads this
    {
      ClientState(conn, cursor, closed)
    }

    /** `__init__` sets both session fields to `None`. */
    constructor (params: map<string, Value>, checkMode: bool)
      ensures this.params == params && this.checkMode == checkMode
      ensures conn == None && cursor == None && closed == [] && failure == None
    {
      this.params := params;
      this.checkMode := checkMode;
      conn := None;
      cursor := None;
      closed := [];
      failure := None;
    }

    /** What `initialize_client` leaves behind once connected; the connecting
        itself is driver I/O. */
    method InitializeClient(connection: Handle, newCursor: Handle)
      modifies this
      ensures conn == Some(connection) && cursor == Some(newCursor)
      ensures closed == old(closed) && failure == old(failure)
    {
      conn := Some(connection);
      cursor := Some(newCursor);
    }

    method CloseClientSession()
      modifies this
      ensures State() == Closed(old(State()))
      ensures failure == old(failure)
    {
      if cursor.Some? {
        closed := closed + [cursor.value];
        cursor := None;
      }
      if conn.Some? {
        closed := closed + [conn.value];
        conn := None;
      }
    }

    /** `handle_error`: only a module error closes the session and fails the
        module; `None` stands for any other value, which changes nothing. */
    method HandleError(error: Option<ModuleError>)
      modifies this
      ensures error.Some? ==> State() == Closed(old(State())) && failure == error
      ensures error.None? ==> State() == old(State()) && failure == old(failure)
    {
      if error.Some? {
        CloseClientSession();
        failure := error;
      }
    }

    /** `get_defined_non_connection_params` as written: the second loop deletes
        every `None`-valued key from the copy, including a connection option
        the first loop already deleted, which raises `KeyError`. */
    method GetDefinedNonConnectionParamsAsWritten() returns (r: Outcome<map<string, Value>>)
      ensures !r.Fail?
      ensures r.Crash? <==> DeletesTwice(params)
      ensures r.Crash? ==> r.exception.KeyError? && r.exception.key in params
                           && r.exception.key in LoginKeys && params[r.exception.key] == NoneValue
      ensures r.Done? ==> DefinedNonConnection(params, r.value)
    {
      var filtered := params;
      var deleteKeys := set k | k in params && k in LoginKeys;
      var todo := deleteKeys;
      while todo != {}
        invariant todo <= deleteKeys
        invariant filtered.Keys == params.Keys - (deleteKeys - todo)
        invariant forall k :: k in filtered ==> filtered[k] == params[k]
        decreases |todo|
      {
        var k :| k in todo;
        filtered := filtered - {k};
        todo := todo - {k};
      }
      var noneKeys := set k | k in params && params[k] == NoneValue;
      todo := noneKeys;
      while todo != {}
        invariant todo <= noneKeys
        invariant filtered.Keys == params.Keys - deleteKeys - (noneKeys - todo)
        invariant forall k :: k in filtered ==> filtered[k] == params[k]
        invariant forall k :: k in noneKeys && k !in todo ==> k !in LoginKeys
        decreases |todo|
      {
        var k :| k in todo;
        if k !in filtered {
          return Crash(KeyError(k));
        }
        filtered := filtered - {k};
        todo := todo - {k};
      }
      return Done(filtered);
    }

    /** The filter with the second deletion tolerating a key that is already
        gone, which is what the two loops are for. */
    method GetDefinedNonConnectionParams() returns (r: map<string, Value>)
      ensures forall k :: k in r <==> k in params && k !in LoginKeys && params[k] != NoneValue
      ensures forall k :: k in r ==> r[k] == params[k]
    {
      var filtered := params;
      var deleteKeys := set k | k in params && k in LoginKeys;
      var todo := deleteKeys;
      while todo != {}
        invariant todo <= deleteKeys
        invariant filtered.Keys == params.Keys - (deleteKeys - todo)
        invariant forall k :: k in filtered ==> filtered[k] == params[k]
        decreases |todo|
      {
        var k :| k in todo;
        filtered := filtered - {k};
        todo := todo - {k};
      }
      var noneKeys := set k | k in params && params[k] == NoneValue;
      todo := noneKeys;
      while todo != {}
        invariant todo <= noneKeys
        invariant filtered.Keys == params.Keys - deleteKeys - (noneKeys - todo)
        invariant forall k :: k in filtered ==> filtered[k] == params[k]
        decreases |todo|
      {
        var k :| k in todo;
        if k in filtered {
          filtered := filtered - {k};
        }
        todo := todo - {k};
      }
      return filtered;
    }
  }

  /** The as-written filter fails exactly where the corrected one succeeds
      differently: a `login_port` given as `None` makes it raise, while the
      corrected filter simply drops the key. */
  lemma LoginPortNoneDeletesTwice(others: map<string, Value>)
    ensures DeletesTwice(others["login_port" := NoneValue])
  {
    assert "login_port" in LoginKeys;
  }

  /** A module option named like a connection option cannot be merged. */
  lemma ArgspecCollision(option: ArgOption)
    ensures GenerateArgspec(map["login_port" := option]) == Crash(TypeError)
  {
    assert "login_port" in LoginKeys && "login_port" in map["login_port" := option];
  }
}
