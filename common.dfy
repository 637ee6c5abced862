/** Shared vocabulary of the collection: optional values, the errors a module
    reports through `fail_json`, uncaught Python exceptions, the outcome of an
    operation, and the ASCII case mapping used by the catalog's spellings. */
module Common {

  datatype Option<+T> = None | Some(value: T) {
    function GetOr(default: T): T {
      match this
      case Some(v) => v
      case None => default
    }
  }

  /** The reasons a module stops with a `MssqlModuleError` (the message text
      itself is not modelled, only which check raised it). */
  datatype ModuleError =
    | EmptyPermissions
    | NoServerPrincipal(principal: string)
    | NoDatabase(database: string)
    | NoDatabasePrincipal(principal: string)
    | NoObject(obj: string)
    | AmbiguousObject(obj: string)
    | NoObjectInSchema(obj: string, schema: string)
    | PasswordNotValidForType
    | ExpirationNotValidForType
    | PolicyNotValidForType
    | ExpirationWithoutPolicy
    | PasswordNotValidWhenAbsent
    | ExpirationNotValidWhenAbsent
    | PolicyNotValidWhenAbsent
    | UnknownLoginType(code: char)
    | LoginTypeChange
    | NoServerLogin(name: string)

  /** A Python exception that escapes the module without passing through
      `handle_error` (so the session is not closed first). */
  datatype PythonException = KeyError(key: string) | TypeError

  /** Done: the module exits with a result. Fail: `handle_error` closed the
      session and called `fail_json`. Crash: an uncaught exception. */
  datatype Outcome<+T> = Done(value: T) | Fail(error: ModuleError) | Crash(exception: PythonException)

  /** The `state` option of the login and user modules. */
  datatype Presence = Present | Absent

  predicate IsLowerLetter(c: char) { 'a' <= c <= 'z' }
  predicate IsUpperLetter(c: char) { 'A' <= c <= 'Z' }

  /** `str.upper` restricted to ASCII: lower-case letters move up, all else is kept. */
  function UpperChar(c: char): (r: char)
    ensures IsLowerLetter(c) ==> IsUpperLetter(r) && LowerChar(r) == c
    ensures !IsLowerLetter(c) ==> r == c
  {
    if IsLowerLetter(c) then (c as int - 32) as char else c
  }

  /** `str.lower` restricted to ASCII. */
  function LowerChar(c: char): (r: char)
    ensures IsUpperLetter(c) ==> IsLowerLetter(r)
    ensures !IsUpperLetter(c) ==> r == c
  {
    if IsUpperLetter(c) then (c as int + 32) as char else c
  }

  function Lower(s: string): (r: string)
    ensures |r| == |s|
    ensures forall i :: 0 <= i < |s| ==> r[i] == LowerChar(s[i])
    ensures forall i :: 0 <= i < |s| ==> !IsUpperLetter(r[i])
  {
    seq(|s|, i requires 0 <= i < |s| => LowerChar(s[i]))
  }
}
