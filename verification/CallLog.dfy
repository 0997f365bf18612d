/** What the foreign calls of a run answered, in the order in which they were made. */
module CallLog {

  /** The calls whose answers a run looks at, or is seen to pass over; `Nothing` is no call. */
  datatype CallName =
    | Nothing
    | Dlopen | Dlsym | DriverInit | DatabaseNew | DatabaseSetUri | DatabaseSetCompute
    | SetToken | SetUser | SetPassword | DatabaseInit
    | ConnectionNew | ConnectionInit | StatementNew | StatementSetSqlQuery | StatementExecuteQuery
    | GetSchema | CountColumns | GetNext | StatementRelease | ConnectionRelease | DatabaseRelease
    | AllocEnv | SetEnvAttr | AllocDbc | Connect | AllocStmt | ExecDirect | NumResultCols
    | DescribeCol | BindCol | Fetch | GetData | CloseCursor

  /** Each call with the code that came back; for a pointer, 0 is null. */
  datatype Log = Begin | Came(before: Log, name: CallName, code: int) {

    function Length(): nat {
      if Begin? then 0 else before.Length() + 1
    }

    function NameAt(i: nat): CallName
      requires i < Length()
    {
      if i == before.Length() then name else before.NameAt(i)
    }

    function CodeAt(i: nat): int
      requires i < Length()
    {
      if i == before.Length() then code else before.CodeAt(i)
    }
  }

  /** Does this answer mean failure? A null pointer; a status other than OK; for ODBC anything but
      success, with information or without, where a fetch may also find no data. The options for
      credentials, the column count and the closing of the cursor cannot fail. */
  predicate Fails(name: CallName, code: int) {
    match name
    case Dlopen | Dlsym => code == 0
    case AllocEnv | SetEnvAttr | AllocDbc | Connect | AllocStmt | ExecDirect | NumResultCols
       | DescribeCol | BindCol => code != 0 && code != 1
    case Fetch | GetData => code != 0 && code != 1 && code != 100
    case Nothing | SetToken | SetUser | SetPassword | CountColumns | CloseCursor => false
    case _ => code != 0
  }

  /** The same for the calls of ADBC, one by one: what each code means. */
  lemma AdbcCodes()
    ensures forall code :: Fails(Dlopen, code) <==> code == 0
    ensures forall code :: Fails(Dlsym, code) <==> code == 0
    ensures forall code :: Fails(DriverInit, code) <==> code != 0
    ensures forall code :: Fails(DatabaseNew, code) <==> code != 0
    ensures forall code :: Fails(DatabaseSetUri, code) <==> code != 0
    ensures forall code :: Fails(DatabaseSetCompute, code) <==> code != 0
    ensures forall code :: Fails(DatabaseInit, code) <==> code != 0
    ensures forall code :: Fails(ConnectionNew, code) <==> code != 0
    ensures forall code :: Fails(ConnectionInit, code) <==> code != 0
    ensures forall code :: Fails(StatementNew, code) <==> code != 0
    ensures forall code :: Fails(StatementSetSqlQuery, code) <==> code != 0
    ensures forall code :: Fails(StatementExecuteQuery, code) <==> code != 0
    ensures forall code :: Fails(GetSchema, code) <==> code != 0
    ensures forall code :: Fails(GetNext, code) <==> code != 0
    ensures forall code :: Fails(StatementRelease, code) <==> code != 0
    ensures forall code :: Fails(ConnectionRelease, code) <==> code != 0
    ensures forall code :: Fails(DatabaseRelease, code) <==> code != 0
    ensures forall code :: !Fails(SetToken, code)
    ensures forall code :: !Fails(SetUser, code)
    ensures forall code :: !Fails(SetPassword, code)
    ensures forall code :: !Fails(CountColumns, code)
  {
  }

  /** And for those of ODBC. */
  lemma OdbcCodes()
    ensures forall code :: Fails(AllocEnv, code) <==> code != 0 && code != 1
    ensures forall code :: Fails(SetEnvAttr, code) <==> code != 0 && code != 1
    ensures forall code :: Fails(AllocDbc, code) <==> code != 0 && code != 1
    ensures forall code :: Fails(Connect, code) <==> code != 0 && code != 1
    ensures forall code :: Fails(AllocStmt, code) <==> code != 0 && code != 1
    ensures forall code :: Fails(ExecDirect, code) <==> code != 0 && code != 1
    ensures forall code :: Fails(NumResultCols, code) <==> code != 0 && code != 1
    ensures forall code :: Fails(DescribeCol, code) <==> code != 0 && code != 1
    ensures forall code :: Fails(BindCol, code) <==> code != 0 && code != 1
    ensures forall code :: Fails(Fetch, code) <==> code != 0 && code != 1 && code != 100
    ensures forall code :: Fails(GetData, code) <==> code != 0 && code != 1 && code != 100
    ensures forall code :: !Fails(CloseCursor, code)
  {
  }

  /** The first call whose answer means failure, if there is one. */
  function FirstFailure(log: Log): CallName {
    if log.Begin? then Nothing
    else if FirstFailure(log.before) != Nothing then FirstFailure(log.before)
    else if Fails(log.name, log.code) then log.name
    else Nothing
  }

  /** No answer before place `i` means failure; and either that is all, or the answer at `i` does. */
  predicate WellUpTo(log: Log, i: nat) {
    i <= log.Length() && forall j | 0 <= j < i :: !Fails(log.NameAt(j), log.CodeAt(j))
  }

  /** `Nothing` exactly when no answer means failure; otherwise the name of the first call whose
      answer does. */
  lemma {:induction false} FirstFailureMeans(log: Log) returns (i: nat)
    ensures WellUpTo(log, i)
    ensures if i == log.Length() then FirstFailure(log) == Nothing
            else Fails(log.NameAt(i), log.CodeAt(i)) && FirstFailure(log) == log.NameAt(i) != Nothing
  {
    i := 0;
    if log.Came? {
      i := FirstFailureMeans(log.before);
      hide Fails;
      NothingNeverFails(log.code);
      forall j | 0 <= j < log.before.Length()
        ensures log.NameAt(j) == log.before.NameAt(j) && log.CodeAt(j) == log.before.CodeAt(j)
      {
      }
      if i == log.before.Length() && !Fails(log.name, log.code) {
        i := i + 1;
      }
    }
  }

  lemma NothingNeverFails(code: int)
    ensures !Fails(Nothing, code)
  {
  }

  // ----- readings of the clock --------------------------------------------------------------

  /** The clock, read between calls: each reading with the calls answered by then. */
  datatype Readings = Unread | Read(before: Readings, at: real, log: Log) {

    function Count(): nat {
      if Unread? then 0 else before.Count() + 1
    }

    function TimeAt(i: nat): real
      requires i < Count()
    {
      if i == before.Count() then at else before.TimeAt(i)
    }

    function LogAt(i: nat): Log
      requires i < Count()
    {
      if i == before.Count() then log else before.LogAt(i)
    }
  }

  // ----- which calls were made --------------------------------------------------------------

  /** The names of calls, one after the other. */
  datatype Path = Start | Next(before: Path, name: CallName)

  function Names(log: Log): Path {
    if log.Begin? then Start else Next(Names(log.before), log.name)
  }

  predicate IsPrefix(p: Path, q: Path) {
    p == q || (q.Next? && IsPrefix(p, q.before))
  }

  lemma {:induction false} PrefixChain(p: Path, q: Path, r: Path)
    requires IsPrefix(p, q) && IsPrefix(q, r)
    ensures IsPrefix(p, r)
  {
    if q != r {
      PrefixChain(p, q, r.before);
    }
  }

  /** Since `before` the run made the calls of `full`, and none failed; or it made the first of them
      and failed at the last one it made, with `error` as its name. */
  ghost predicate Went(log: Log, error: CallName, full: Path) {
    && FirstFailure(log) == error
    && if error == Nothing then Names(log) == full
       else log.Came? && log.name == error && FirstFailure(log.before) == Nothing && IsPrefix(Names(log), full)
  }

  lemma WentAll(log: Log, full: Path)
    requires Went(log, Nothing, full)
    ensures FirstFailure(log) == Nothing && Names(log) == full
  {
  }

  lemma WentEarlier(log: Log, error: CallName, full: Path, more: Path)
    requires Went(log, error, full) && error != Nothing && IsPrefix(full, more)
    ensures Went(log, error, more)
  {
    PrefixChain(Names(log), full, more);
  }
}
