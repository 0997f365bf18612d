/** The ADBC and the ODBC round trip of the driver bench: whatever every foreign call answers, and
    however many batches or rows arrive, what is opened is released and nothing else is touched. */
module DriverPaths {
  import opened Text
  import opened CallLog
  import opened Handles

  /** The call that a run failed at; the text of its message is not part of the model. */
  type Failure = CallName

  /** `PhaseTimings`. */
  datatype Timings = Timings(
    error: Failure, columns: int, rows: int,
    connect: real, prepare: real, execute: real, bind: real, drain: real, release: real, total: real)

  const NO_TIMINGS := Timings(Nothing, 0, 0, 0.0, 0.0, 0.0, 0.0, 0.0, 0.0, 0.0)

  /** The settings that decide which calls are made: is the text given? */
  datatype Config = Config(compute: bool, token: bool, user: bool, password: bool, verbose: bool)

  /** The phases of a run that got to its end: none is negative, and they make up the total. */
  predicate PhasesAddUp(t: Timings) {
    && t.connect >= 0.0 && t.prepare >= 0.0 && t.execute >= 0.0
    && t.bind >= 0.0 && t.drain >= 0.0 && t.release >= 0.0
    && t.total == t.connect + t.prepare + t.execute + t.bind + t.drain + t.release
  }

  function Sum(lengths: seq<nat>): nat {
    if lengths == [] then 0 else Sum(lengths[..|lengths| - 1]) + lengths[|lengths| - 1]
  }

  const OK: int := 0

  /** Did the run get to its end? A release that complains is reported, but stops nothing. */
  predicate Finished(error: Failure) {
    error.Nothing? || error.StatementRelease? || error.ConnectionRelease? || error.DatabaseRelease?
  }

  // ----- ADBC -------------------------------------------------------------------------------

  /** What is open after each part of a run. */
  const LOADED := On(Ground, Library)
  const OPENED := On(LOADED, Database)
  const CONNECTED := On(OPENED, Connection)
  const PREPARED := On(CONNECTED, Statement)
  const EXECUTED := On(PREPARED, Stream)

  /** What a run has opened, besides batches, when it ends with this failure, or with none. */
  function AdbcOpened(error: Failure): Stack {
    match error
    case Dlopen => Ground
    case Dlsym | DriverInit | DatabaseNew => LOADED
    case DatabaseSetUri | DatabaseSetCompute | DatabaseInit | ConnectionNew => OPENED
    case ConnectionInit | StatementNew => CONNECTED
    case StatementSetSqlQuery | StatementExecuteQuery => PREPARED
    case GetSchema => EXECUTED
    case _ => On(EXECUTED, Schema)
  }

  function WithBatches(made: Stack, came: nat): Stack {
    if came == 0 then made else On(WithBatches(made, came - 1), Batch)
  }

  /** Some batches came, all of them unless the run failed; they and nothing else were opened besides
      what the run got to, and the rows are theirs. */
  ghost predicate Accounted(made: Stack, batches: seq<nat>, rows: int, error: Failure) {
    exists came: nat ::
      && came <= |batches|
      && made == WithBatches(AdbcOpened(error), came)
      && rows == Sum(batches[..came])
      && (Finished(error) ==> came == |batches|)
      && (!Finished(error) && error != GetNext ==> came == 0)
  }

  /** The failures before the first batch is asked for. */
  predicate IsEarly(error: Failure) {
    !Finished(error) && error != GetNext
  }

  lemma NothingCame(batches: seq<nat>, error: Failure)
    requires IsEarly(error)
    ensures !Finished(error) && Accounted(AdbcOpened(error), batches, 0, error)
  {
    assert WithBatches(AdbcOpened(error), 0) == AdbcOpened(error) && Sum(batches[..0]) == 0;
  }

  lemma ReleasesChangeNothing(made: Stack, batches: seq<nat>, rows: int, error: Failure)
    requires Accounted(made, batches, rows, Nothing) && Finished(error)
    ensures Accounted(made, batches, rows, error)
  {
    assert AdbcOpened(error) == AdbcOpened(Nothing);
  }

  // The calls of each part of a run, after those of `p`.

  function LoadCalls(p: Path): Path {
    Next(Next(Next(p, Dlopen), Dlsym), DriverInit)
  }

  function AddressCalls(p: Path, cfg: Config): Path {
    var q := Next(p, DatabaseSetUri);
    if cfg.compute then Next(q, DatabaseSetCompute) else q
  }

  /** A token, or else what there is of user and password. */
  function CredentialCalls(p: Path, cfg: Config): Path {
    if cfg.token then Next(p, SetToken)
    else
      var q := if cfg.user then Next(p, SetUser) else p;
      if cfg.password then Next(q, SetPassword) else q
  }

  function DatabaseCalls(p: Path, cfg: Config): Path {
    Next(CredentialCalls(AddressCalls(Next(p, DatabaseNew), cfg), cfg), DatabaseInit)
  }

  function ConnectionCalls(p: Path): Path {
    Next(Next(p, ConnectionNew), ConnectionInit)
  }

  function ConnectCalls(p: Path, cfg: Config): Path {
    ConnectionCalls(DatabaseCalls(LoadCalls(p), cfg))
  }

  function PrepareCalls(p: Path): Path {
    Next(Next(p, StatementNew), StatementSetSqlQuery)
  }

  function ExecuteCalls(p: Path): Path {
    Next(Next(Next(p, StatementExecuteQuery), GetSchema), CountColumns)
  }

  /** So many batches are asked for. */
  function DrainCalls(p: Path, n: nat): Path {
    if n == 0 then p else Next(DrainCalls(p, n - 1), GetNext)
  }

  function ReleaseCalls(p: Path): Path {
    Next(Next(Next(p, StatementRelease), ConnectionRelease), DatabaseRelease)
  }

  /** All calls up to the release phase, when so many batches are there: one more is asked for. */
  function WorkCalls(cfg: Config, batches: nat): Path {
    DrainCalls(ExecuteCalls(PrepareCalls(ConnectCalls(Start, cfg))), batches + 1)
  }

  lemma LoadGrows(p: Path)
    ensures IsPrefix(p, LoadCalls(p))
    ensures IsPrefix(Next(p, Dlopen), LoadCalls(p)) && IsPrefix(Next(Next(p, Dlopen), Dlsym), LoadCalls(p))
  {
    assert IsPrefix(p, Next(Next(p, Dlopen), Dlsym));
  }

  lemma AddressGrows(p: Path, cfg: Config)
    ensures IsPrefix(p, AddressCalls(p, cfg)) && IsPrefix(Next(p, DatabaseSetUri), AddressCalls(p, cfg))
  {
  }

  lemma CredentialsGrow(p: Path, cfg: Config)
    ensures IsPrefix(p, CredentialCalls(p, cfg))
  {
  }

  lemma DatabaseGrows(p: Path, cfg: Config)
    ensures IsPrefix(p, DatabaseCalls(p, cfg)) && IsPrefix(Next(p, DatabaseNew), DatabaseCalls(p, cfg))
    ensures IsPrefix(AddressCalls(Next(p, DatabaseNew), cfg), DatabaseCalls(p, cfg))
  {
    var q := Next(p, DatabaseNew);
    var r := AddressCalls(q, cfg);
    hide AddressCalls, CredentialCalls;
    AddressGrows(q, cfg);
    CredentialsGrow(r, cfg);
    PrefixChain(r, CredentialCalls(r, cfg), DatabaseCalls(p, cfg));
    PrefixChain(q, r, DatabaseCalls(p, cfg));
    PrefixChain(p, q, DatabaseCalls(p, cfg));
  }

  lemma ConnectionGrows(p: Path)
    ensures IsPrefix(p, ConnectionCalls(p)) && IsPrefix(Next(p, ConnectionNew), ConnectionCalls(p))
  {
  }

  lemma ConnectGrows(p: Path, cfg: Config)
    ensures IsPrefix(LoadCalls(p), ConnectCalls(p, cfg))
    ensures IsPrefix(DatabaseCalls(LoadCalls(p), cfg), ConnectCalls(p, cfg))
  {
    hide LoadCalls, DatabaseCalls, ConnectionCalls;
    DatabaseGrows(LoadCalls(p), cfg);
    ConnectionGrows(DatabaseCalls(LoadCalls(p), cfg));
    PrefixChain(LoadCalls(p), DatabaseCalls(LoadCalls(p), cfg), ConnectCalls(p, cfg));
  }

  lemma PrepareGrows(p: Path)
    ensures IsPrefix(p, PrepareCalls(p)) && IsPrefix(Next(p, StatementNew), PrepareCalls(p))
  {
  }

  lemma ExecuteGrows(p: Path)
    ensures IsPrefix(p, ExecuteCalls(p))
    ensures IsPrefix(Next(p, StatementExecuteQuery), ExecuteCalls(p))
    ensures IsPrefix(Next(Next(p, StatementExecuteQuery), GetSchema), ExecuteCalls(p))
  {
    assert IsPrefix(p, Next(Next(p, StatementExecuteQuery), GetSchema));
  }

  lemma {:induction false} DrainGrows(p: Path, m: nat, n: nat)
    requires m <= n
    ensures IsPrefix(DrainCalls(p, m), DrainCalls(p, n))
  {
    if m < n {
      DrainGrows(p, m, n - 1);
    }
  }

  /** The parts of a run before the release phase, each a prefix of the whole. */
  lemma WorkGrows(cfg: Config, batches: nat)
    ensures IsPrefix(ConnectCalls(Start, cfg), WorkCalls(cfg, batches))
    ensures IsPrefix(PrepareCalls(ConnectCalls(Start, cfg)), WorkCalls(cfg, batches))
    ensures IsPrefix(ExecuteCalls(PrepareCalls(ConnectCalls(Start, cfg))), WorkCalls(cfg, batches))
  {
    var c := ConnectCalls(Start, cfg);
    var p := PrepareCalls(c);
    var e := ExecuteCalls(p);
    hide ConnectCalls, PrepareCalls, ExecuteCalls;
    PrepareGrows(c);
    ExecuteGrows(p);
    DrainGrows(e, 0, batches + 1);
    PrefixChain(p, e, WorkCalls(cfg, batches));
    PrefixChain(c, p, WorkCalls(cfg, batches));
  }

  /** The releases of an early exit, once a library is open: what is initialised, the latest first. */
  method Unwind(w: World, stmtInit: bool, connInit: bool, dbInit: bool)
    requires w.Valid()
    requires (
      var d := if dbInit then OPENED else LOADED;
      var c := if connInit then On(d, Connection) else d;
      w.open == if stmtInit then On(c, Statement) else c)
    modifies w`trace, w`open
    ensures w.Valid() && w.open == Ground
  {
    hide Follows, Then;
    if stmtInit { w.Release(Statement); }
    if connInit { w.Release(Connection); }
    if dbInit { w.Release(Database); }
    w.Release(Library);
  }

  /** What a failed connect phase had opened. */
  lemma AdbcFacts()
    ensures AdbcOpened(DatabaseNew) == LOADED
    ensures AdbcOpened(DatabaseSetUri) == AdbcOpened(DatabaseSetCompute) == AdbcOpened(DatabaseInit) == OPENED
    ensures AdbcOpened(ConnectionNew) == OPENED && AdbcOpened(ConnectionInit) == CONNECTED
    ensures AdbcOpened(StatementExecuteQuery) == PREPARED && AdbcOpened(GetSchema) == EXECUTED
    ensures AdbcOpened(Nothing) == On(EXECUTED, Schema)
  {
  }

  /** The connect phase, first part: the library and its driver table. */
  method AdbcLoad(w: World) returns (error: Failure)
    requires w.Valid() && w.Untouched()
    modifies w`trace, w`open, w`made, w`log
    ensures w.Valid()
    ensures (error.Nothing? || error.Dlopen? || error.Dlsym? || error.DriverInit?)
    ensures if error == Nothing then w.open == w.made == LOADED
            else w.open == Ground && w.made == AdbcOpened(error)
    ensures Went(w.log, error, LoadCalls(Start))
  {
    AdbcCodes();
    hide Fails, Follows, Then, World.Valid, FirstFailure, Names, IsPrefix;
    LoadGrows(Start);
    NothingCalled();
    var lib := w.Answer(Dlopen);
    if lib == 0 {
      return Dlopen;
    }
    w.Acquire(Library);
    var initFn := w.Call(Library, Dlsym);
    if initFn == 0 {
      w.Release(Library);
      return Dlsym;
    }
    var rc := w.Call(Library, DriverInit);
    if rc != OK {
      w.Release(Library);
      PrefixItself(LoadCalls(Start));
      return DriverInit;
    }
    return Nothing;
  }

  lemma NothingCalled()
    ensures Names(Begin) == Start && FirstFailure(Begin) == Nothing
  {
  }

  lemma PrefixItself(p: Path)
    ensures IsPrefix(p, p)
  {
  }

  /** The options for the address, which are checked. */
  method AdbcSetAddress(w: World, cfg: Config) returns (error: Failure)
    requires w.Valid() && w.open == OPENED && FirstFailure(w.log) == Nothing
    modifies w`trace, w`log
    ensures w.Valid() && (error.Nothing? || error.DatabaseSetUri? || error.DatabaseSetCompute?)
    ensures Went(w.log, error, AddressCalls(Names(old(w.log)), cfg))
  {
    AdbcCodes();
    hide Fails, Follows, Then, World.Valid, FirstFailure, Names, IsPrefix;
    AddressGrows(Names(w.log), cfg);
    PrefixItself(AddressCalls(Names(w.log), cfg));
    var rc := w.Call(Database, DatabaseSetUri);
    if rc != OK {
      return DatabaseSetUri;
    }
    if cfg.compute {
      rc := w.Call(Database, DatabaseSetCompute);
      if rc != OK {
        return DatabaseSetCompute;
      }
    }
    return Nothing;
  }

  /** The credentials, whose options may fail: a token, or else what there is of user and password. */
  method AdbcSetCredentials(w: World, cfg: Config)
    requires w.Valid() && w.open == OPENED && FirstFailure(w.log) == Nothing
    modifies w`trace, w`log
    ensures w.Valid()
    ensures Went(w.log, Nothing, CredentialCalls(Names(old(w.log)), cfg))
  {
    AdbcCodes();
    hide Fails, Follows, Then, World.Valid, FirstFailure, Names, IsPrefix;
    if cfg.token {
      var _ := w.Call(Database, SetToken);
    } else {
      if cfg.user {
        var _ := w.Call(Database, SetUser);
      }
      if cfg.password {
        var _ := w.Call(Database, SetPassword);
      }
    }
  }

  /** Second part: the database and its options. Only the options for the address are checked. */
  method AdbcOpenDatabase(w: World, cfg: Config) returns (error: Failure, dbInit: bool)
    requires w.Valid() && w.open == w.made == LOADED && FirstFailure(w.log) == Nothing
    modifies w`trace, w`open, w`made, w`log
    ensures w.Valid() && (error == Nothing ==> dbInit)
    ensures (error.Nothing? || error.DatabaseNew? || error.DatabaseSetUri? || error.DatabaseSetCompute?
             || error.DatabaseInit?)
    ensures if error == Nothing then w.open == w.made == OPENED
            else w.open == Ground && w.made == AdbcOpened(error)
    ensures Went(w.log, error, DatabaseCalls(Names(old(w.log)), cfg))
  {
    AdbcCodes();
    AdbcFacts();
    hide AdbcOpened, Fails, Follows, Then, World.Valid, FirstFailure, Names, IsPrefix, AddressCalls, CredentialCalls;
    ghost var p := Names(w.log);
    ghost var all := DatabaseCalls(p, cfg);
    DatabaseGrows(p, cfg);
    PrefixItself(all);
    dbInit := false;
    var rc := w.Call(Library, DatabaseNew);
    if rc != OK {
      w.Release(Library);
      return DatabaseNew, dbInit;
    }
    w.Acquire(Database);
    error := AdbcSetAddress(w, cfg);
    if error != Nothing {
      WentEarlier(w.log, error, AddressCalls(Next(p, DatabaseNew), cfg), all);
      w.Release(Database);
      w.Release(Library);
      return error, dbInit;
    }
    AdbcSetCredentials(w, cfg);
    rc := w.Call(Database, DatabaseInit);
    if rc != OK {
      w.Release(Database);
      w.Release(Library);
      return DatabaseInit, dbInit;
    }
    dbInit := true;
    return Nothing, dbInit;
  }

  /** Third part: the connection. */
  method AdbcOpenConnection(w: World) returns (error: Failure, connInit: bool)
    requires w.Valid() && w.open == w.made == OPENED && FirstFailure(w.log) == Nothing
    modifies w`trace, w`open, w`made, w`log
    ensures w.Valid() && (error == Nothing ==> connInit)
    ensures (error.Nothing? || error.ConnectionNew? || error.ConnectionInit?)
    ensures if error == Nothing then w.open == w.made == CONNECTED
            else w.open == Ground && w.made == AdbcOpened(error)
    ensures Went(w.log, error, ConnectionCalls(Names(old(w.log))))
  {
    AdbcCodes();
    AdbcFacts();
    hide AdbcOpened, Fails, Follows, Then, World.Valid, FirstFailure, Names, IsPrefix;
    ConnectionGrows(Names(w.log));
    PrefixItself(ConnectionCalls(Names(w.log)));
    connInit := false;
    var rc := w.Call(Library, ConnectionNew);
    if rc != OK {
      w.Release(Database);
      w.Release(Library);
      return ConnectionNew, connInit;
    }
    w.Acquire(Connection);
    w.Touch(Database);
    rc := w.Call(Connection, ConnectionInit);
    if rc != OK {
      w.Release(Connection);
      w.Release(Database);
      w.Release(Library);
      return ConnectionInit, connInit;
    }
    connInit := true;
    return Nothing, connInit;
  }

  /** The whole connect phase. */
  method AdbcConnect(w: World, cfg: Config) returns (error: Failure, dbInit: bool, connInit: bool)
    requires w.Valid() && w.Untouched()
    modifies w`trace, w`open, w`made, w`log
    ensures w.Valid() && (error == Nothing || IsEarly(error)) && (error == Nothing ==> dbInit && connInit)
    ensures error != Nothing ==> ReadingsAt(error) == 1
    ensures if error == Nothing then w.open == w.made == CONNECTED
            else w.open == Ground && w.made == AdbcOpened(error)
    ensures Went(w.log, error, ConnectCalls(Start, cfg))
  {
    hide Follows, AdbcOpened, FirstFailure, Names, IsPrefix, LoadCalls, DatabaseCalls, ConnectionCalls;
    ConnectGrows(Start, cfg);
    dbInit, connInit := false, false;
    error := AdbcLoad(w);
    if error != Nothing {
      WentEarlier(w.log, error, LoadCalls(Start), ConnectCalls(Start, cfg));
      return;
    }
    error, dbInit := AdbcOpenDatabase(w, cfg);
    if error != Nothing {
      WentEarlier(w.log, error, DatabaseCalls(LoadCalls(Start), cfg), ConnectCalls(Start, cfg));
      return;
    }
    error, connInit := AdbcOpenConnection(w);
  }

  /** The prepare phase: a statement with its text. */
  method AdbcPrepare(w: World, dbInit: bool, connInit: bool) returns (error: Failure, stmtInit: bool)
    requires w.Valid() && w.open == w.made == CONNECTED && dbInit && connInit && FirstFailure(w.log) == Nothing
    modifies w`trace, w`open, w`made, w`log
    ensures w.Valid() && (error == Nothing ==> stmtInit)
    ensures (error.Nothing? || error.StatementNew? || error.StatementSetSqlQuery?) && (error == Nothing || IsEarly(error))
    ensures error != Nothing ==> ReadingsAt(error) == 2
    ensures if error == Nothing then w.open == w.made == PREPARED
            else w.open == Ground && w.made == AdbcOpened(error)
    ensures Went(w.log, error, PrepareCalls(Names(old(w.log))))
  {
    AdbcCodes();
    hide Fails, Follows, Then, World.Valid, FirstFailure, Names, IsPrefix;
    PrepareGrows(Names(w.log));
    PrefixItself(PrepareCalls(Names(w.log)));
    stmtInit := false;
    var rc := w.Call(Connection, StatementNew);
    if rc != OK {
      Unwind(w, stmtInit, connInit, dbInit);
      return StatementNew, stmtInit;
    }
    w.Acquire(Statement);
    stmtInit := true;
    rc := w.Call(Statement, StatementSetSqlQuery);
    if rc != OK {
      Unwind(w, stmtInit, connInit, dbInit);
      return StatementSetSqlQuery, stmtInit;
    }
    return Nothing, stmtInit;
  }

  /** The execute phase: a stream, and its schema looked at once. The columns are what the schema
      answers, and 0 when the run does not get to it. */
  method AdbcExecute(w: World, dbInit: bool, connInit: bool, stmtInit: bool)
    returns (error: Failure, columns: int)
    requires w.Valid() && w.open == w.made == PREPARED && dbInit && connInit && stmtInit && FirstFailure(w.log) == Nothing
    modifies w`trace, w`open, w`made, w`log
    ensures w.Valid()
    ensures (error.Nothing? || error.StatementExecuteQuery? || error.GetSchema?) && (error == Nothing || IsEarly(error))
    ensures error != Nothing ==> ReadingsAt(error) == 3
    ensures if error == Nothing then w.open == EXECUTED && w.made == AdbcOpened(Nothing)
            else w.open == Ground && w.made == AdbcOpened(error)
    ensures Went(w.log, error, ExecuteCalls(Names(old(w.log))))
    ensures if error == Nothing then Answered(w.log, CountColumns, columns) else columns == 0
  {
    AdbcCodes();
    AdbcFacts();
    hide AdbcOpened, Fails, Follows, Then, World.Valid, FirstFailure, Names, IsPrefix;
    ExecuteGrows(Names(w.log));
    columns := 0;
    var rc := w.Call(Statement, StatementExecuteQuery);
    if rc != OK {
      Unwind(w, stmtInit, connInit, dbInit);
      return StatementExecuteQuery, columns;
    }
    w.Acquire(Stream);
    rc := w.Call(Stream, GetSchema);
    if rc != 0 {
      w.Release(Stream);
      Unwind(w, stmtInit, connInit, dbInit);
      return GetSchema, columns;
    }
    w.Acquire(Schema);
    columns := w.Call(Schema, CountColumns);
    w.Release(Schema);
    return Nothing, columns;
  }

  /** The last call answered with this code. */
  ghost predicate Answered(log: Log, name: CallName, code: int) {
    log.Came? && log.name == name && log.code == code
  }

  /** The drain phase: batches are pulled, counted and released until the stream ends or fails. The
      rows counted are those of the batches that came. */
  method AdbcDrain(w: World, batches: seq<nat>) returns (error: Failure, rowCount: nat)
    requires w.Valid() && w.open == EXECUTED && w.made == AdbcOpened(Nothing) && FirstFailure(w.log) == Nothing
    modifies w`trace, w`open, w`made, w`log, w`clock
    ensures w.Valid() && w.open == PREPARED && w.clock >= old(w.clock)
    ensures (error.Nothing? || error.GetNext?) && (error == Nothing || !Finished(error))
    ensures Accounted(w.made, batches, rowCount, error)
    ensures Went(w.log, error, DrainCalls(Names(old(w.log)), |batches| + 1))
  {
    AdbcCodes();
    hide Fails, Follows, Then, World.Valid, FirstFailure, Names, IsPrefix;
    ghost var p := Names(w.log);
    error := Nothing;
    rowCount := 0;
    var k := 0;
    while true
      invariant w.Valid() && w.open == EXECUTED && w.clock >= old(w.clock)
      invariant 0 <= k <= |batches| && rowCount == Sum(batches[..k])
      invariant w.made == WithBatches(AdbcOpened(Nothing), k)
      invariant FirstFailure(w.log) == Nothing && Names(w.log) == DrainCalls(p, k)
      decreases |batches| - k
    {
      var _ := w.Now();
      var next := w.AskNext(Stream, GetNext);
      var _ := w.Now();
      DrainGrows(p, k + 1, |batches| + 1);
      if next != 0 {
        error := GetNext;
        break;
      }
      if k == |batches| {
        assert batches[..k] == batches;
        break;
      }
      w.Acquire(Batch);
      rowCount := rowCount + batches[k];
      assert batches[..k + 1][..k] == batches[..k];
      k := k + 1;
      var _ := w.Now();
      w.Release(Batch);
      var _ := w.Now();
    }
    w.Release(Stream);
  }

  /** The verbose mode looks for a profiling function in the library. */
  method AdbcProfile(w: World, cfg: Config)
    requires w.Valid() && w.open == PREPARED
    modifies w`trace
    ensures w.Valid()
  {
    hide Follows, Then;
    assert PREPARED.below.below.Holds(Library);
    if cfg.verbose {
      w.Touch(Library);
    }
  }

  /** The release phase, which goes on whatever the releases answer and reports the first complaint. */
  method AdbcRelease(w: World, dbInit: bool, connInit: bool, stmtInit: bool) returns (error: Failure)
    requires w.Valid() && w.open == PREPARED && dbInit && connInit && stmtInit && FirstFailure(w.log) == Nothing
    modifies w`trace, w`open, w`log
    ensures w.Valid() && w.open == Ground && Finished(error)
    ensures FirstFailure(w.log) == error && Names(w.log) == ReleaseCalls(Names(old(w.log)))
  {
    hide Follows, Then, Names;
    error := Nothing;
    if stmtInit {
      var rc := w.CallRelease(Statement, StatementRelease);
      if rc != OK {
        error := StatementRelease;
      }
    }
    if connInit {
      var rc := w.CallRelease(Connection, ConnectionRelease);
      if rc != OK && error == Nothing {
        error := ConnectionRelease;
      }
    }
    if dbInit {
      var rc := w.CallRelease(Database, DatabaseRelease);
      if rc != OK && error == Nothing {
        error := DatabaseRelease;
      }
    }
    w.Release(Library);
  }

  /** How often a run reads the clock between phases when it ends with this failure, or with none. */
  function ReadingsAt(error: Failure): nat {
    match error
    case StatementNew | StatementSetSqlQuery => 2
    case StatementExecuteQuery | GetSchema => 3
    case GetNext => 5
    case Nothing | StatementRelease | ConnectionRelease | DatabaseRelease => 6
    case _ => 1
  }

  /** Each phase is the time between the two readings around its calls, and 0 if the run did not get
      to its end. */
  ghost predicate AdbcTimed(out: Timings, r: Readings, cfg: Config, batches: nat) {
    && r.Count() > 0
    && (out.connect == if r.Count() > 1 then r.TimeAt(1) - r.TimeAt(0) else 0.0)
    && (out.prepare == if r.Count() > 2 then r.TimeAt(2) - r.TimeAt(1) else 0.0)
    && (out.execute == if r.Count() > 3 then r.TimeAt(3) - r.TimeAt(2) else 0.0)
    && out.bind == 0.0
    && (out.drain == if r.Count() > 4 then r.TimeAt(4) - r.TimeAt(3) else 0.0)
    && (out.release == if r.Count() > 5 then r.TimeAt(5) - r.TimeAt(4) else 0.0)
    && (out.total == if r.Count() > 5 then r.TimeAt(5) - r.TimeAt(0) else 0.0)
    && r.LogAt(0) == Begin
    && (r.Count() > 1 ==> Names(r.LogAt(1)) == ConnectCalls(Start, cfg))
    && (r.Count() > 2 ==> Names(r.LogAt(2)) == PrepareCalls(ConnectCalls(Start, cfg)))
    && (r.Count() > 3 ==> Names(r.LogAt(3)) == ExecuteCalls(PrepareCalls(ConnectCalls(Start, cfg))))
    && (r.Count() > 5 ==> Names(r.LogAt(4)) == WorkCalls(cfg, batches))
    && if r.Count() > 3 then Answered(r.LogAt(3), CountColumns, out.columns) else out.columns == 0
  }

  /** The outcome of a run, as the readings of the clock make it. */
  ghost predicate AdbcReported(out: Timings, r: Readings, cfg: Config, batches: nat) {
    r.Count() == ReadingsAt(out.error) && AdbcTimed(out, r, cfg, batches)
  }

  /** So many readings so far, the first of them `t0`. */
  ghost predicate Began(r: Readings, n: nat, t0: real) {
    r.Read? && r.Count() == n && r.TimeAt(0) == t0
  }

  lemma Reported(out: Timings, error: Failure, r: Readings, t0: real, cfg: Config, batches: nat)
    requires Began(r, ReadingsAt(error), t0) && AdbcTimed(out, r, cfg, batches)
    ensures AdbcReported(out.(error := error), r, cfg, batches)
  {
  }

  // One more reading, and the phase that it ends.

  lemma StartTimed(out: Timings, t: real, log: Log, cfg: Config, batches: nat)
    requires out == NO_TIMINGS && log == Begin
    ensures AdbcTimed(out, Read(Unread, t, log), cfg, batches)
    ensures Began(Read(Unread, t, log), 1, t)
  {
  }

  lemma ConnectTimed(out: Timings, r: Readings, t: real, log: Log, t0: real, cfg: Config, batches: nat)
    requires Began(r, 1, t0) && AdbcTimed(out, r, cfg, batches) && Names(log) == ConnectCalls(Start, cfg)
    ensures AdbcTimed(out.(connect := t - r.at), Read(r, t, log), cfg, batches)
    ensures Began(Read(r, t, log), 2, t0)
  {
  }

  lemma PrepareTimed(out: Timings, r: Readings, t: real, log: Log, t0: real, cfg: Config, batches: nat)
    requires Began(r, 2, t0) && AdbcTimed(out, r, cfg, batches)
    requires Names(log) == PrepareCalls(ConnectCalls(Start, cfg))
    ensures AdbcTimed(out.(prepare := t - r.at), Read(r, t, log), cfg, batches)
    ensures Began(Read(r, t, log), 3, t0)
  {
  }

  lemma ExecuteTimed(out: Timings, r: Readings, t: real, log: Log, t0: real, columns: int, cfg: Config, batches: nat)
    requires Began(r, 3, t0) && AdbcTimed(out, r, cfg, batches)
    requires Names(log) == ExecuteCalls(PrepareCalls(ConnectCalls(Start, cfg))) && Answered(log, CountColumns, columns)
    ensures AdbcTimed(out.(columns := columns, execute := t - r.at, bind := 0.0), Read(r, t, log), cfg, batches)
    ensures Began(Read(r, t, log), 4, t0)
  {
  }

  lemma DrainTimed(
    out: Timings, r: Readings, t: real, log: Log, t0: real, error: Failure, rows: int, cfg: Config, batches: nat)
    requires Began(r, 4, t0) && AdbcTimed(out, r, cfg, batches)
    ensures AdbcTimed(out.(error := error, drain := t - r.at, rows := rows), Read(r, t, log), cfg, batches)
    ensures Began(Read(r, t, log), 5, t0)
  {
  }

  lemma ReleaseTimed(out: Timings, r: Readings, t: real, log: Log, t0: real, error: Failure, cfg: Config, batches: nat)
    requires Began(r, 5, t0) && AdbcTimed(out, r, cfg, batches) && Names(r.log) == WorkCalls(cfg, batches)
    ensures AdbcTimed(out.(error := error, release := t - r.at, total := t - t0),
                      Read(r, t, log), cfg, batches)
    ensures Began(Read(r, t, log), 6, t0)
  {
  }

  /** What the answers were, from the outcome: the error is the first call that failed; a run without
      one, or with a release that complained, made all calls in order, and any other run stopped at
      the call that failed. */
  ghost predicate AdbcWent(log: Log, error: Failure, cfg: Config, batches: nat) {
    && FirstFailure(log) == error
    && if Finished(error) then Names(log) == ReleaseCalls(WorkCalls(cfg, batches))
       else log.Came? && log.name == error && FirstFailure(log.before) == Nothing
            && IsPrefix(Names(log), WorkCalls(cfg, batches))
  }

  lemma StoppedAt(log: Log, error: Failure, full: Path, cfg: Config, batches: nat)
    requires Went(log, error, full) && !Finished(error) && IsPrefix(full, WorkCalls(cfg, batches))
    ensures AdbcWent(log, error, cfg, batches)
  {
    WentEarlier(log, error, full, WorkCalls(cfg, batches));
  }

  /** The phases up to the drain. Either the run ended early, or the stream is drained or failed, and
      a statement is still open. */
  method AdbcWork(w: World, cfg: Config, batches: seq<nat>)
    returns (out: Timings, early: bool, t0: real, t4: real, dbInit: bool, connInit: bool, stmtInit: bool)
    requires w.Valid() && w.Untouched() && w.readings == Unread
    modifies w
    ensures w.Valid() && Accounted(w.made, batches, out.rows, out.error)
    ensures early ==> w.open == Ground && !Finished(out.error)
    ensures early ==> AdbcWent(w.log, out.error, cfg, |batches|) && AdbcReported(out, w.readings, cfg, |batches|)
    ensures !early ==> w.open == PREPARED && dbInit && connInit && stmtInit
    ensures !early ==> (out.error.Nothing? || out.error.GetNext?) && Went(w.log, out.error, WorkCalls(cfg, |batches|))
    ensures !early ==> Drained(out, w.readings, t0, t4, cfg, |batches|) && w.readings.log == w.log && w.clock == t4
  {
    hide Follows, Then, Accounted, AdbcOpened, IsEarly, AdbcWent, IsPrefix, FirstFailure, Names, ConnectCalls,
      PrepareCalls, ExecuteCalls, ReleaseCalls, WorkCalls, AdbcTimed, AdbcReported, Began, Answered,
      World.Valid, Went, ReadingsAt, Finished;
    WorkGrows(cfg, |batches|);
    out, early := NO_TIMINGS, true;
    dbInit, connInit, stmtInit := false, false, false;
    var error, columns, rowCount := Nothing, 0, 0;
    t0 := w.Mark();
    t4 := t0;
    ghost var r := w.readings;
    StartTimed(out, t0, w.log, cfg, |batches|);
    error, dbInit, connInit := AdbcConnect(w, cfg);
    out := out.(error := error);
    if error != Nothing {
      NothingCame(batches, error);
      StoppedAt(w.log, error, ConnectCalls(Start, cfg), cfg, |batches|);
      Reported(NO_TIMINGS, error, r, t0, cfg, |batches|);
      return;
    }
    WentAll(w.log, ConnectCalls(Start, cfg));
    var t1 := w.Mark();
    ConnectTimed(out, r, t1, w.log, t0, cfg, |batches|);
    r := w.readings;
    out := out.(connect := t1 - t0);
    error, stmtInit := AdbcPrepare(w, dbInit, connInit);
    if error != Nothing {
      NothingCame(batches, error);
      StoppedAt(w.log, error, PrepareCalls(ConnectCalls(Start, cfg)), cfg, |batches|);
      Reported(out, error, r, t0, cfg, |batches|);
      out := out.(error := error);
      return;
    }
    WentAll(w.log, PrepareCalls(ConnectCalls(Start, cfg)));
    var t2 := w.Mark();
    PrepareTimed(out, r, t2, w.log, t0, cfg, |batches|);
    r := w.readings;
    out := out.(prepare := t2 - t1);
    error, columns := AdbcExecute(w, dbInit, connInit, stmtInit);
    if error != Nothing {
      NothingCame(batches, error);
      StoppedAt(w.log, error, ExecuteCalls(PrepareCalls(ConnectCalls(Start, cfg))), cfg, |batches|);
      Reported(out, error, r, t0, cfg, |batches|);
      out := out.(error := error);
      return;
    }
    WentAll(w.log, ExecuteCalls(PrepareCalls(ConnectCalls(Start, cfg))));
    var t3 := w.Mark();
    ExecuteTimed(out, r, t3, w.log, t0, columns, cfg, |batches|);
    r := w.readings;
    out := out.(columns := columns, execute := t3 - t2, bind := 0.0);
    error, rowCount := AdbcDrain(w, batches);
    WorkIs(cfg, |batches|);
    t4 := w.Mark();
    DrainTimed(out, r, t4, w.log, t0, error, rowCount, cfg, |batches|);
    out := out.(error := error, drain := t4 - t3, rows := rowCount);
    early := false;
  }

  /** The outcome so far, when the stream is drained at `t4` in a run that began at `t0`. */
  ghost predicate Drained(out: Timings, r: Readings, t0: real, t4: real, cfg: Config, batches: nat) {
    && Began(r, 5, t0) && r.at == t4 && AdbcTimed(out, r, cfg, batches)
    && out.connect >= 0.0 && out.prepare >= 0.0 && out.execute >= 0.0 && out.bind == 0.0 && out.drain >= 0.0
    && t4 - t0 == out.connect + out.prepare + out.execute + out.drain
  }

  /** `run_adbc_iter`. `batches` are the lengths of the batches that the stream will deliver, unless
      an error comes before. Every exit has released every handle, and the outcome says what the
      calls answered. */
  method RunAdbcIter(w: World, cfg: Config, batches: seq<nat>) returns (out: Timings)
    requires w.Valid() && w.Untouched() && w.readings == Unread
    modifies w
    ensures w.Valid() && w.open == Ground
    ensures Accounted(w.made, batches, out.rows, out.error)
    ensures AdbcWent(w.log, out.error, cfg, |batches|)
    ensures AdbcReported(out, w.readings, cfg, |batches|)
    ensures Finished(out.error) ==> PhasesAddUp(out)
  {
    hide Follows, Then, Accounted, AdbcOpened, AdbcWent, IsPrefix, FirstFailure, Names, ReleaseCalls,
      WorkCalls, AdbcTimed, AdbcReported, Began, World.Valid, World.Untouched, Went;
    var early, t0, t4, dbInit, connInit, stmtInit;
    out, early, t0, t4, dbInit, connInit, stmtInit := AdbcWork(w, cfg, batches);
    if early {
      return;
    }
    AdbcProfile(w, cfg);
    if out.error != Nothing {
      PrefixItself(WorkCalls(cfg, |batches|));
      StoppedAt(w.log, out.error, WorkCalls(cfg, |batches|), cfg, |batches|);
      Unwind(w, stmtInit, connInit, dbInit);
      Reported(out, out.error, w.readings, t0, cfg, |batches|);
      return;
    }
    WentAll(w.log, WorkCalls(cfg, |batches|));
    ghost var r := w.readings;
    var error := AdbcRelease(w, dbInit, connInit, stmtInit);
    ReleasesChangeNothing(w.made, batches, out.rows, error);
    AllWent(w.log, error, cfg, |batches|);
    var t5 := w.Mark();
    ReleaseTimed(out, r, t5, w.log, t0, error, cfg, |batches|);
    out := out.(error := error, release := t5 - t4, total := t5 - t0);
    Reported(out, error, w.readings, t0, cfg, |batches|);
  }

  lemma WorkIs(cfg: Config, batches: nat)
    ensures WorkCalls(cfg, batches) == DrainCalls(ExecuteCalls(PrepareCalls(ConnectCalls(Start, cfg))), batches + 1)
  {
  }

  lemma AllWent(log: Log, error: Failure, cfg: Config, batches: nat)
    requires FirstFailure(log) == error && Finished(error) && Names(log) == ReleaseCalls(WorkCalls(cfg, batches))
    ensures AdbcWent(log, error, cfg, batches)
  {
  }

  // ----- ODBC -------------------------------------------------------------------------------

  /** What a run has opened when it ends with this failure, or with none. */
  function OdbcOpened(error: Failure): Stack {
    match error
    case AllocEnv => Ground
    case SetEnvAttr | AllocDbc => WITH_ENV
    case Connect => WITH_DBC
    case AllocStmt => WITH_LINK
    case _ => CURSOR
  }

  predicate Succeeded(rc: int) { rc == 0 || rc == 1 }

  const NO_DATA: int := 100

  function Held(stmt: bool, connected: bool, dbc: bool, env: bool): Stack {
    var e := if env then On(Ground, Env) else Ground;
    var d := if dbc then On(e, Dbc) else e;
    var c := if connected then On(d, Link) else d;
    if stmt then On(c, Stmt) else c
  }

  const WITH_ENV := On(Ground, Env)
  const WITH_DBC := On(WITH_ENV, Dbc)
  const WITH_LINK := On(WITH_DBC, Link)
  const CURSOR := On(WITH_LINK, Stmt)

  // The calls of each part of a run, after those of `p`.

  function AllocateCalls(p: Path): Path {
    Next(Next(Next(p, AllocEnv), SetEnvAttr), AllocDbc)
  }

  function LinkCalls(p: Path): Path {
    Next(Next(p, Connect), AllocStmt)
  }

  /** One description for each column, and in the bound mode one binding. */
  function DescribeCalls(p: Path, columns: nat, useGetData: bool): Path {
    if columns == 0 then p
    else
      var q := Next(DescribeCalls(p, columns - 1, useGetData), DescribeCol);
      if useGetData then q else Next(q, BindCol)
  }

  /** One call for each cell. */
  function CellCalls(p: Path, columns: nat): Path {
    if columns == 0 then p else Next(CellCalls(p, columns - 1), GetData)
  }

  /** One fetch for each row, in the GetData mode with its cells. */
  function RowCalls(p: Path, rows: nat, columns: nat, useGetData: bool): Path {
    if rows == 0 then p
    else
      var q := Next(RowCalls(p, rows - 1, columns, useGetData), Fetch);
      if useGetData then CellCalls(q, columns) else q
  }

  function OdbcConnectCalls(p: Path): Path {
    LinkCalls(AllocateCalls(p))
  }

  function OdbcBindCalls(p: Path, columns: nat, useGetData: bool): Path {
    DescribeCalls(Next(p, NumResultCols), columns, useGetData)
  }

  /** All rows, and one more fetch that finds the end. */
  function OdbcDrainCalls(p: Path, rows: nat, columns: nat, useGetData: bool): Path {
    Next(RowCalls(p, rows, columns, useGetData), Fetch)
  }

  /** All calls up to the release phase. */
  function OdbcWorkCalls(useGetData: bool, columns: nat, rows: nat): Path {
    OdbcDrainCalls(OdbcBindCalls(Next(OdbcConnectCalls(Start), ExecDirect), columns, useGetData), rows, columns, useGetData)
  }

  lemma AllocateGrows(p: Path)
    ensures IsPrefix(p, AllocateCalls(p))
    ensures IsPrefix(Next(p, AllocEnv), AllocateCalls(p))
    ensures IsPrefix(Next(Next(p, AllocEnv), SetEnvAttr), AllocateCalls(p))
  {
    assert IsPrefix(p, Next(Next(p, AllocEnv), SetEnvAttr));
  }

  lemma LinkGrows(p: Path)
    ensures IsPrefix(p, LinkCalls(p)) && IsPrefix(Next(p, Connect), LinkCalls(p))
  {
  }

  lemma {:induction false} DescribeGrows(p: Path, m: nat, n: nat, useGetData: bool)
    requires m <= n
    ensures IsPrefix(DescribeCalls(p, m, useGetData), DescribeCalls(p, n, useGetData))
    ensures m < n ==> IsPrefix(Next(DescribeCalls(p, m, useGetData), DescribeCol), DescribeCalls(p, n, useGetData))
  {
    if m < n {
      DescribeGrows(p, m, n - 1, useGetData);
      PrefixItself(Next(DescribeCalls(p, m, useGetData), DescribeCol));
    }
  }

  lemma {:induction false} CellsGrow(p: Path, m: nat, n: nat)
    requires m <= n
    ensures IsPrefix(CellCalls(p, m), CellCalls(p, n))
  {
    if m < n {
      CellsGrow(p, m, n - 1);
    }
  }

  lemma {:induction false} RowsGrow(p: Path, m: nat, n: nat, columns: nat, useGetData: bool)
    requires m <= n
    ensures IsPrefix(RowCalls(p, m, columns, useGetData), RowCalls(p, n, columns, useGetData))
  {
    if m < n {
      RowsGrow(p, m, n - 1, columns, useGetData);
      var before := RowCalls(p, n - 1, columns, useGetData);
      var q := Next(before, Fetch);
      assert IsPrefix(before, q);
      CellsGrow(q, 0, columns);
      hide RowCalls, CellCalls, IsPrefix;
      assert IsPrefix(q, RowCalls(p, n, columns, useGetData)) by {
        RowIs(p, n, columns, useGetData);
        PrefixItself(q);
      }
      PrefixChain(before, q, RowCalls(p, n, columns, useGetData));
      PrefixChain(RowCalls(p, m, columns, useGetData), before, RowCalls(p, n, columns, useGetData));
    } else {
      PrefixItself(RowCalls(p, n, columns, useGetData));
    }
  }

  lemma RowIs(p: Path, rows: nat, columns: nat, useGetData: bool)
    requires rows > 0
    ensures var q := Next(RowCalls(p, rows - 1, columns, useGetData), Fetch);
            && RowCalls(p, rows, columns, useGetData) == (if useGetData then CellCalls(q, columns) else q)
            && CellCalls(q, 0) == q
  {
  }

  /** The calls up to a row's last are a prefix of the whole drain. */
  lemma DrainReaches(p: Path, row: nat, rows: nat, columns: nat, useGetData: bool)
    requires row <= rows
    ensures var q := Next(RowCalls(p, row, columns, useGetData), Fetch);
            var all := OdbcDrainCalls(p, rows, columns, useGetData);
            && IsPrefix(q, all)
            && (row < rows && useGetData ==> IsPrefix(CellCalls(q, columns), all))
  {
    var q := Next(RowCalls(p, row, columns, useGetData), Fetch);
    var all := OdbcDrainCalls(p, rows, columns, useGetData);
    if row == rows {
      PrefixItself(q);
    } else {
      RowsGrow(p, row + 1, rows, columns, useGetData);
      var next := RowCalls(p, row + 1, columns, useGetData);
      CellsGrow(q, 0, columns);
      RowIs(p, row + 1, columns, useGetData);
      PrefixItself(q);
      hide RowCalls, CellCalls;
      assert IsPrefix(RowCalls(p, rows, columns, useGetData), all);
      hide IsPrefix;
      PrefixChain(next, RowCalls(p, rows, columns, useGetData), all);
      PrefixChain(q, next, all);
    }
  }

  lemma DrainStarts(p: Path, rows: nat, columns: nat, useGetData: bool)
    ensures IsPrefix(p, OdbcDrainCalls(p, rows, columns, useGetData))
  {
    RowsGrow(p, 0, rows, columns, useGetData);
  }

  lemma BindStarts(p: Path, columns: nat, useGetData: bool)
    ensures IsPrefix(p, OdbcBindCalls(p, columns, useGetData))
    ensures IsPrefix(Next(p, NumResultCols), OdbcBindCalls(p, columns, useGetData))
  {
    DescribeGrows(Next(p, NumResultCols), 0, columns, useGetData);
    PrefixChain(p, Next(p, NumResultCols), OdbcBindCalls(p, columns, useGetData));
  }

  /** The parts of a run before the release phase, each a prefix of the whole. */
  lemma OdbcWorkGrows(useGetData: bool, columns: nat, rows: nat)
    ensures var all, c := OdbcWorkCalls(useGetData, columns, rows), OdbcConnectCalls(Start);
            var x := Next(c, ExecDirect);
            && IsPrefix(AllocateCalls(Start), all) && IsPrefix(c, all) && IsPrefix(x, all)
            && IsPrefix(Next(x, NumResultCols), all) && IsPrefix(OdbcBindCalls(x, columns, useGetData), all)
  {
    var all, c := OdbcWorkCalls(useGetData, columns, rows), OdbcConnectCalls(Start);
    var x := Next(c, ExecDirect);
    var b := OdbcBindCalls(x, columns, useGetData);
    assert IsPrefix(c, x);
    LinkGrows(AllocateCalls(Start));
    BindStarts(x, columns, useGetData);
    DrainStarts(b, rows, columns, useGetData);
    hide IsPrefix, OdbcBindCalls, OdbcDrainCalls, LinkCalls, AllocateCalls;
    PrefixChain(Next(x, NumResultCols), b, all);
    PrefixChain(x, b, all);
    PrefixChain(c, x, all);
    PrefixChain(AllocateCalls(Start), c, all);
  }

  /** `free_handles`: frees what is allocated, the latest first. */
  method FreeHandles(w: World, stmt: bool, connected: bool, dbc: bool, env: bool)
    requires w.Valid()
    requires w.open == Held(stmt, connected, dbc, env)
    modifies w`trace, w`open
    ensures w.Valid() && w.open == Ground
  {
    if stmt {
      w.Release(Stmt);
    }
    if connected {
      w.Release(Link);
    }
    if dbc {
      w.Release(Dbc);
    }
    if env {
      w.Release(Env);
    }
  }

  /** One row in the GetData mode: every cell is asked for, until an error. */
  method GetRow(w: World, columns: nat) returns (ok: bool)
    requires w.Valid() && w.open == CURSOR && FirstFailure(w.log) == Nothing
    modifies w`trace, w`log
    ensures w.Valid()
    ensures Went(w.log, if ok then Nothing else GetData, CellCalls(Names(old(w.log)), columns))
  {
    OdbcCodes();
    hide Fails, Follows, Then, World.Valid, FirstFailure, Names, IsPrefix;
    ghost var p := Names(w.log);
    for i := 0 to columns
      invariant w.Valid() && FirstFailure(w.log) == Nothing && Names(w.log) == CellCalls(p, i)
    {
      var rc := w.Call(Stmt, GetData);
      CellsGrow(p, i + 1, columns);
      if !Succeeded(rc) && rc != NO_DATA {
        return false;
      }
    }
    return true;
  }

  /** Describing and, unless cells are asked for one by one, binding the columns. */
  method DescribeColumns(w: World, columns: nat, useGetData: bool) returns (error: Failure)
    requires w.Valid() && w.open == CURSOR && FirstFailure(w.log) == Nothing
    modifies w`trace, w`log
    ensures w.Valid() && (error.Nothing? || error.DescribeCol? || error.BindCol?)
    ensures Went(w.log, error, DescribeCalls(Names(old(w.log)), columns, useGetData))
  {
    OdbcCodes();
    hide Fails, Follows, Then, World.Valid, FirstFailure, Names, IsPrefix;
    ghost var p := Names(w.log);
    for i := 0 to columns
      invariant w.Valid() && FirstFailure(w.log) == Nothing && Names(w.log) == DescribeCalls(p, i, useGetData)
    {
      DescribeGrows(p, i, columns, useGetData);
      DescribeGrows(p, i + 1, columns, useGetData);
      var rc := w.Call(Stmt, DescribeCol);
      if !Succeeded(rc) {
        return DescribeCol;
      }
      if !useGetData {
        rc := w.Call(Stmt, BindCol);
        if !Succeeded(rc) {
          return BindCol;
        }
      }
    }
    return Nothing;
  }

  /** How often a run reads the clock between phases when it ends with this failure, or with none. */
  function OdbcReadingsAt(error: Failure): nat {
    match error
    case ExecDirect => 2
    case NumResultCols | DescribeCol | BindCol => 3
    case Fetch | GetData => 4
    case Nothing => 6
    case _ => 1
  }

  /** Did the run come to know its columns? */
  predicate KnowsColumns(error: Failure) {
    error.Nothing? || error.DescribeCol? || error.BindCol? || error.Fetch? || error.GetData?
  }

  /** An exit on the statement: the diagnostic is read and the handles are freed. */
  method OdbcGiveUp(w: World, stmt: bool, connected: bool, dbc: bool, env: bool)
    requires w.Valid() && w.open == CURSOR && stmt && connected && dbc && env
    modifies w`trace, w`open
    ensures w.Valid() && w.open == Ground
  {
    hide Follows, Then, World.Valid;
    w.Touch(Stmt);
    FreeHandles(w, stmt, connected, dbc, env);
  }

  /** What a phase leaves that works on the statement: the statement, or nothing if it failed. */
  ghost predicate OnStatement(open: Stack, made: Stack, error: Failure) {
    made == CURSOR == OdbcOpened(error) && open == if error == Nothing then CURSOR else Ground
  }

  /** The execute phase is one call. */
  method OdbcExecute(w: World, stmt: bool, connected: bool, dbc: bool, env: bool) returns (error: Failure)
    requires w.Valid() && w.open == w.made == CURSOR && stmt && connected && dbc && env && FirstFailure(w.log) == Nothing
    modifies w`trace, w`open, w`log
    ensures w.Valid() && OnStatement(w.open, w.made, error)
    ensures error != Nothing ==> OdbcReadingsAt(error) == 2 && !KnowsColumns(error)
    ensures Went(w.log, error, Next(Names(old(w.log)), ExecDirect))
  {
    OdbcCodes();
    hide Fails, Follows, Then, World.Valid, FirstFailure, Names, IsPrefix;
    PrefixItself(Next(Names(w.log), ExecDirect));
    var rc := w.Call(Stmt, ExecDirect);
    if !Succeeded(rc) {
      OdbcGiveUp(w, stmt, connected, dbc, env);
      return ExecDirect;
    }
    return Nothing;
  }

  /** The bind phase: the number of columns, which `columns` is unless the call fails, and what each
      of them takes. */
  method OdbcBind(
    w: World, columns: nat, useGetData: bool, stmt: bool, connected: bool, dbc: bool, env: bool)
    returns (error: Failure, cols: int)
    requires w.Valid() && w.open == w.made == CURSOR && stmt && connected && dbc && env && FirstFailure(w.log) == Nothing
    modifies w`trace, w`open, w`log
    ensures w.Valid() && OnStatement(w.open, w.made, error)
    ensures error != Nothing ==> OdbcReadingsAt(error) == 3
    ensures KnowsColumns(Nothing) && cols == if KnowsColumns(error) then columns else 0
    ensures Went(w.log, error, OdbcBindCalls(Names(old(w.log)), columns, useGetData))
  {
    OdbcCodes();
    hide Fails, Follows, Then, World.Valid, FirstFailure, Names, IsPrefix, DescribeCalls;
    BindStarts(Names(w.log), columns, useGetData);
    var rc := w.Call(Stmt, NumResultCols);
    if !Succeeded(rc) {
      OdbcGiveUp(w, stmt, connected, dbc, env);
      return NumResultCols, 0;
    }
    error := DescribeColumns(w, columns, useGetData);
    if error != Nothing {
      OdbcGiveUp(w, stmt, connected, dbc, env);
    }
    return error, columns;
  }

  /** What a failed connect phase had opened, and what it has to free. */
  lemma OdbcFacts()
    ensures OdbcOpened(AllocEnv) == Ground && OdbcOpened(SetEnvAttr) == OdbcOpened(AllocDbc) == WITH_ENV
    ensures OdbcOpened(Connect) == WITH_DBC && OdbcOpened(AllocStmt) == WITH_LINK
    ensures Held(false, false, false, true) == WITH_ENV && Held(false, false, true, true) == WITH_DBC
    ensures Held(false, true, true, true) == WITH_LINK
  {
  }

  /** The connect phase, first part: environment and connection handle. */
  method OdbcAllocate(w: World) returns (error: Failure, env: bool, dbc: bool)
    requires w.Valid() && w.Untouched()
    modifies w`trace, w`open, w`made, w`log
    ensures w.Valid() && (error.Nothing? || error.AllocEnv? || error.SetEnvAttr? || error.AllocDbc?)
    ensures error == Nothing ==> env && dbc
    ensures if error == Nothing then w.open == w.made == WITH_DBC
            else w.open == Ground && w.made == OdbcOpened(error)
    ensures Went(w.log, error, AllocateCalls(Start))
  {
    OdbcCodes();
    OdbcFacts();
    hide OdbcOpened, Held, Fails, Follows, Then, World.Valid, FirstFailure, Names, IsPrefix;
    AllocateGrows(Start);
    PrefixItself(AllocateCalls(Start));
    NothingCalled();
    env, dbc := false, false;
    var stmt, connected := false, false;
    var rc := w.Answer(AllocEnv);
    if !Succeeded(rc) {
      return AllocEnv, env, dbc;
    }
    w.Acquire(Env);
    env := true;
    rc := w.Call(Env, SetEnvAttr);
    if !Succeeded(rc) {
      w.Touch(Env);
      FreeHandles(w, stmt, connected, dbc, env);
      return SetEnvAttr, env, dbc;
    }
    rc := w.Call(Env, AllocDbc);
    if !Succeeded(rc) {
      w.Touch(Env);
      FreeHandles(w, stmt, connected, dbc, env);
      return AllocDbc, env, dbc;
    }
    w.Acquire(Dbc);
    dbc := true;
    return Nothing, env, dbc;
  }

  /** Second part: the connection itself and a statement. */
  method OdbcConnect(w: World, env: bool, dbc: bool) returns (error: Failure, connected: bool, stmt: bool)
    requires w.Valid() && w.open == w.made == WITH_DBC && env && dbc && FirstFailure(w.log) == Nothing
    modifies w`trace, w`open, w`made, w`log
    ensures w.Valid() && (error.Nothing? || error.Connect? || error.AllocStmt?) && (error == Nothing ==> connected && stmt)
    ensures if error == Nothing then w.open == w.made == CURSOR
            else w.open == Ground && w.made == OdbcOpened(error)
    ensures Went(w.log, error, LinkCalls(Names(old(w.log))))
  {
    OdbcCodes();
    OdbcFacts();
    hide OdbcOpened, Held, Fails, Follows, Then, World.Valid, FirstFailure, Names, IsPrefix;
    LinkGrows(Names(w.log));
    PrefixItself(LinkCalls(Names(w.log)));
    connected, stmt := false, false;
    var rc := w.Call(Dbc, Connect);
    if !Succeeded(rc) {
      w.Touch(Dbc);
      FreeHandles(w, stmt, connected, dbc, env);
      return Connect, connected, stmt;
    }
    w.Acquire(Link);
    connected := true;
    rc := w.Call(Dbc, AllocStmt);
    if !Succeeded(rc) {
      w.Touch(Dbc);
      FreeHandles(w, stmt, connected, dbc, env);
      return AllocStmt, connected, stmt;
    }
    w.Acquire(Stmt);
    stmt := true;
    return Nothing, connected, stmt;
  }

  /** The drain phase, in both modes: one fetch per row and one more that finds the end, and in the
      GetData mode one call per cell. */
  method OdbcDrain(w: World, useGetData: bool, columns: nat, rowsThere: nat)
    returns (error: Failure, rowCount: nat)
    requires w.Valid() && w.open == CURSOR && FirstFailure(w.log) == Nothing
    modifies w`trace, w`log, w`clock
    ensures w.Valid() && w.clock >= old(w.clock)
    ensures error == Nothing ==> rowCount == rowsThere
    ensures error != Nothing ==> (error.Fetch? || error.GetData?) && rowCount <= rowsThere
    ensures Went(w.log, error, OdbcDrainCalls(Names(old(w.log)), rowsThere, columns, useGetData))
  {
    OdbcCodes();
    hide Fails, Follows, Then, World.Valid, FirstFailure, Names, IsPrefix, CellCalls;
    ghost var p := Names(w.log);
    ghost var all := OdbcDrainCalls(p, rowsThere, columns, useGetData);
    rowCount := 0;
    while true
      invariant w.Valid() && w.clock >= old(w.clock)
      invariant FirstFailure(w.log) == Nothing && Names(w.log) == RowCalls(p, rowCount, columns, useGetData)
      invariant rowCount <= rowsThere
      decreases rowsThere - rowCount
    {
      DrainReaches(p, rowCount, rowsThere, columns, useGetData);
      var _ := w.Now();
      var rc := w.CallFetch(Stmt, Fetch, rowCount < rowsThere);
      var _ := w.Now();
      if rc == NO_DATA {
        return Nothing, rowCount;
      }
      if !Succeeded(rc) {
        return Fetch, rowCount;
      }
      if useGetData {
        ghost var q := Names(w.log);
        var ok := GetRow(w, columns);
        if !ok {
          WentEarlier(w.log, GetData, CellCalls(q, columns), all);
          return GetData, rowCount;
        }
      }
      rowCount := rowCount + 1;
    }
  }

  /** The whole drain phase. */
  method OdbcFetchAll(
    w: World, useGetData: bool, columns: nat, rowsThere: nat, stmt: bool, connected: bool, dbc: bool, env: bool)
    returns (error: Failure, rowCount: nat)
    requires w.Valid() && w.open == w.made == CURSOR && stmt && connected && dbc && env && FirstFailure(w.log) == Nothing
    modifies w`trace, w`open, w`log, w`clock
    ensures w.Valid() && OnStatement(w.open, w.made, error) && w.clock >= old(w.clock)
    ensures if error == Nothing then rowCount == rowsThere else OdbcReadingsAt(error) == 4 && KnowsColumns(error)
    ensures Went(w.log, error, OdbcDrainCalls(Names(old(w.log)), rowsThere, columns, useGetData))
  {
    hide Fails, Follows, Then, World.Valid, FirstFailure, Names, IsPrefix, OdbcDrainCalls, Went;
    error, rowCount := OdbcDrain(w, useGetData, columns, rowsThere);
    if error != Nothing {
      OdbcGiveUp(w, stmt, connected, dbc, env);
    }
  }

  /** Each phase is the time between the two readings around its calls, and 0 if the run did not get
      to its end. */
  ghost predicate OdbcTimed(out: Timings, r: Readings, useGetData: bool, columns: nat, rows: nat) {
    && r.Count() > 0
    && (out.connect == if r.Count() > 1 then r.TimeAt(1) - r.TimeAt(0) else 0.0)
    && out.prepare == 0.0
    && (out.execute == if r.Count() > 2 then r.TimeAt(2) - r.TimeAt(1) else 0.0)
    && (out.bind == if r.Count() > 3 then r.TimeAt(3) - r.TimeAt(2) else 0.0)
    && (out.drain == if r.Count() > 4 then r.TimeAt(4) - r.TimeAt(3) else 0.0)
    && (out.release == if r.Count() > 5 then r.TimeAt(5) - r.TimeAt(4) else 0.0)
    && (out.total == if r.Count() > 5 then r.TimeAt(5) - r.TimeAt(0) else 0.0)
    && r.LogAt(0) == Begin
    && (r.Count() > 1 ==> Names(r.LogAt(1)) == OdbcConnectCalls(Start))
    && (r.Count() > 2 ==> Names(r.LogAt(2)) == Next(OdbcConnectCalls(Start), ExecDirect))
    && (r.Count() > 3 ==>
         Names(r.LogAt(3)) == OdbcBindCalls(Next(OdbcConnectCalls(Start), ExecDirect), columns, useGetData))
    && (r.Count() > 4 ==> Names(r.LogAt(4)) == OdbcWorkCalls(useGetData, columns, rows))
  }

  /** The outcome of a run, as the readings of the clock make it. */
  ghost predicate OdbcReported(out: Timings, r: Readings, useGetData: bool, columns: nat, rows: nat) {
    r.Count() == OdbcReadingsAt(out.error) && OdbcTimed(out, r, useGetData, columns, rows)
  }

  lemma ReportedByOdbc(
    out: Timings, error: Failure, r: Readings, t0: real, useGetData: bool, columns: nat, rows: nat)
    requires Began(r, OdbcReadingsAt(error), t0) && OdbcTimed(out, r, useGetData, columns, rows)
    ensures OdbcReported(out.(error := error), r, useGetData, columns, rows)
  {
  }

  lemma OdbcColumns(out: Timings, cols: int, r: Readings, useGetData: bool, columns: nat, rows: nat)
    requires OdbcTimed(out, r, useGetData, columns, rows)
    ensures OdbcTimed(out.(columns := cols), r, useGetData, columns, rows)
  {
  }

  // One more reading, and the phase that it ends.

  lemma OdbcStartTimed(out: Timings, t: real, log: Log, useGetData: bool, columns: nat, rows: nat)
    requires out == NO_TIMINGS && log == Begin
    ensures OdbcTimed(out, Read(Unread, t, log), useGetData, columns, rows)
    ensures Began(Read(Unread, t, log), 1, t)
  {
  }

  lemma OdbcConnectTimed(out: Timings, r: Readings, t: real, log: Log, t0: real, useGetData: bool, columns: nat, rows: nat)
    requires Began(r, 1, t0) && OdbcTimed(out, r, useGetData, columns, rows) && Names(log) == OdbcConnectCalls(Start)
    ensures OdbcTimed(out.(connect := t - r.at), Read(r, t, log), useGetData, columns, rows)
    ensures Began(Read(r, t, log), 2, t0)
  {
  }

  lemma OdbcExecuteTimed(out: Timings, r: Readings, t: real, log: Log, t0: real, useGetData: bool, columns: nat, rows: nat)
    requires Began(r, 2, t0) && OdbcTimed(out, r, useGetData, columns, rows)
    requires Names(log) == Next(OdbcConnectCalls(Start), ExecDirect)
    ensures OdbcTimed(out.(prepare := 0.0, execute := t - r.at), Read(r, t, log), useGetData, columns, rows)
    ensures Began(Read(r, t, log), 3, t0)
  {
  }

  lemma OdbcBindTimed(out: Timings, r: Readings, t: real, log: Log, t0: real, useGetData: bool, columns: nat, rows: nat)
    requires Began(r, 3, t0) && OdbcTimed(out, r, useGetData, columns, rows)
    requires Names(log) == OdbcBindCalls(Next(OdbcConnectCalls(Start), ExecDirect), columns, useGetData)
    ensures OdbcTimed(out.(bind := t - r.at), Read(r, t, log), useGetData, columns, rows)
    ensures Began(Read(r, t, log), 4, t0)
  {
  }

  lemma OdbcDrainTimed(
    out: Timings, r: Readings, t: real, log: Log, t0: real, rowCount: int, useGetData: bool, columns: nat, rows: nat)
    requires Began(r, 4, t0) && OdbcTimed(out, r, useGetData, columns, rows)
    requires Names(log) == OdbcWorkCalls(useGetData, columns, rows)
    ensures OdbcTimed(out.(drain := t - r.at, rows := rowCount), Read(r, t, log), useGetData, columns, rows)
    ensures Began(Read(r, t, log), 5, t0)
  {
  }

  lemma OdbcReleaseTimed(out: Timings, r: Readings, t: real, log: Log, t0: real, useGetData: bool, columns: nat, rows: nat)
    requires Began(r, 5, t0) && OdbcTimed(out, r, useGetData, columns, rows)
    ensures OdbcTimed(out.(release := t - r.at, total := t - t0), Read(r, t, log),
                      useGetData, columns, rows)
    ensures Began(Read(r, t, log), 6, t0)
  {
  }

  /** What the answers were, from the outcome. */
  ghost predicate OdbcWent(log: Log, error: Failure, useGetData: bool, columns: nat, rows: nat) {
    && FirstFailure(log) == error
    && if error == Nothing then Names(log) == Next(OdbcWorkCalls(useGetData, columns, rows), CloseCursor)
       else log.Came? && log.name == error && FirstFailure(log.before) == Nothing
            && IsPrefix(Names(log), OdbcWorkCalls(useGetData, columns, rows))
  }

  lemma OdbcStopped(log: Log, error: Failure, full: Path, useGetData: bool, columns: nat, rows: nat)
    requires Went(log, error, full) && error != Nothing && IsPrefix(full, OdbcWorkCalls(useGetData, columns, rows))
    ensures OdbcWent(log, error, useGetData, columns, rows)
  {
    WentEarlier(log, error, full, OdbcWorkCalls(useGetData, columns, rows));
  }

  /** The connect phase. */
  method OdbcOpenConnection(w: World) returns (error: Failure, env: bool, dbc: bool, connected: bool, stmt: bool)
    requires w.Valid() && w.Untouched()
    modifies w`trace, w`open, w`made, w`log
    ensures w.Valid() && (error == Nothing ==> env && dbc && connected && stmt)
    ensures error != Nothing ==> OdbcReadingsAt(error) == 1 && !KnowsColumns(error)
    ensures if error == Nothing then w.open == w.made == CURSOR
            else w.open == Ground && w.made == OdbcOpened(error)
    ensures Went(w.log, error, OdbcConnectCalls(Start))
  {
    OdbcCodes();
    hide Fails, Follows, Then, World.Valid, FirstFailure, Names, IsPrefix, AllocateCalls, LinkCalls;
    connected, stmt := false, false;
    error, env, dbc := OdbcAllocate(w);
    if error == Nothing {
      error, connected, stmt := OdbcConnect(w, env, dbc);
    } else {
      LinkGrows(AllocateCalls(Start));
      WentEarlier(w.log, error, AllocateCalls(Start), OdbcConnectCalls(Start));
    }
  }

  /** The outcome so far, when all rows have come at `t4` in a run that began at `t0`. */
  ghost predicate OdbcDrained(
    out: Timings, r: Readings, t0: real, t4: real, useGetData: bool, columns: nat, rows: nat)
  {
    && Began(r, 5, t0) && r.at == t4 && OdbcTimed(out, r, useGetData, columns, rows)
    && out.connect >= 0.0 && out.prepare == 0.0 && out.execute >= 0.0 && out.bind >= 0.0 && out.drain >= 0.0
    && t4 - t0 == out.connect + out.execute + out.bind + out.drain
  }

  /** The phases up to the drain. Either the run has failed and ended, or all rows have come and the
      statement is still open. */
  method OdbcWork(w: World, useGetData: bool, columns: nat, rowsThere: nat)
    returns (out: Timings, t0: real, t4: real, env: bool, dbc: bool, connected: bool, stmt: bool)
    requires w.Valid() && w.Untouched() && w.readings == Unread
    modifies w
    ensures w.Valid() && w.made == OdbcOpened(out.error)
    ensures out.columns == if KnowsColumns(out.error) then columns else 0
    ensures out.rows == if out.error == Nothing then rowsThere else 0
    ensures out.error != Nothing ==> w.open == Ground && OdbcWent(w.log, out.error, useGetData, columns, rowsThere)
    ensures out.error != Nothing ==> OdbcReported(out, w.readings, useGetData, columns, rowsThere)
    ensures out.error == Nothing ==> w.open == CURSOR && env && dbc && connected && stmt
    ensures out.error == Nothing ==> Went(w.log, Nothing, OdbcWorkCalls(useGetData, columns, rowsThere))
    ensures out.error == Nothing ==> OdbcDrained(out, w.readings, t0, t4, useGetData, columns, rowsThere) && w.clock == t4
  {
    hide Follows, Then, FirstFailure, Names, IsPrefix, OdbcConnectCalls, OdbcBindCalls, OdbcDrainCalls,
      OdbcWorkCalls, OdbcWent, OdbcTimed, OdbcReported, Began, World.Valid, Went, OdbcReadingsAt, KnowsColumns, OdbcOpened;
    ghost var all, c := OdbcWorkCalls(useGetData, columns, rowsThere), OdbcConnectCalls(Start);
    ghost var x := Next(c, ExecDirect);
    ghost var b := OdbcBindCalls(x, columns, useGetData);
    OdbcWorkGrows(useGetData, columns, rowsThere);
    out := NO_TIMINGS;
    var error;
    t0 := w.Mark();
    t4 := t0;
    ghost var r := w.readings;
    OdbcStartTimed(out, t0, w.log, useGetData, columns, rowsThere);
    error, env, dbc, connected, stmt := OdbcOpenConnection(w);
    if error != Nothing {
      OdbcStopped(w.log, error, c, useGetData, columns, rowsThere);
      ReportedByOdbc(out, error, r, t0, useGetData, columns, rowsThere);
      out := out.(error := error);
      return;
    }
    WentAll(w.log, c);
    var t1 := w.Mark();
    OdbcConnectTimed(out, r, t1, w.log, t0, useGetData, columns, rowsThere);
    r := w.readings;
    out := out.(connect := t1 - t0);

    error := OdbcExecute(w, stmt, connected, dbc, env);
    if error != Nothing {
      OdbcStopped(w.log, error, x, useGetData, columns, rowsThere);
      ReportedByOdbc(out, error, r, t0, useGetData, columns, rowsThere);
      out := out.(error := error);
      return;
    }
    WentAll(w.log, x);
    var t2 := w.Mark();
    OdbcExecuteTimed(out, r, t2, w.log, t0, useGetData, columns, rowsThere);
    r := w.readings;
    out := out.(prepare := 0.0, execute := t2 - t1);

    var cols;
    error, cols := OdbcBind(w, columns, useGetData, stmt, connected, dbc, env);
    OdbcColumns(out, cols, r, useGetData, columns, rowsThere);
    out := out.(columns := cols);
    if error != Nothing {
      OdbcStopped(w.log, error, b, useGetData, columns, rowsThere);
      ReportedByOdbc(out, error, r, t0, useGetData, columns, rowsThere);
      out := out.(error := error);
      return;
    }
    WentAll(w.log, b);
    var t3 := w.Mark();
    OdbcBindTimed(out, r, t3, w.log, t0, useGetData, columns, rowsThere);
    r := w.readings;
    out := out.(bind := t3 - t2);

    var rowCount;
    error, rowCount := OdbcFetchAll(w, useGetData, columns, rowsThere, stmt, connected, dbc, env);
    OdbcWorkIs(useGetData, columns, rowsThere);
    if error != Nothing {
      PrefixItself(all);
      OdbcStopped(w.log, error, all, useGetData, columns, rowsThere);
      ReportedByOdbc(out, error, r, t0, useGetData, columns, rowsThere);
      out := out.(error := error);
      return;
    }
    WentAll(w.log, all);
    t4 := w.Mark();
    OdbcDrainTimed(out, r, t4, w.log, t0, rowCount, useGetData, columns, rowsThere);
    out := out.(drain := t4 - t3, rows := rowCount);
  }

  /** `run_odbc_iter`. `columns` and `rowsThere` are what the driver will report and deliver, unless
      an error comes before. Every exit has released every handle, and the outcome says what the
      calls answered. */
  method RunOdbcIter(w: World, useGetData: bool, columns: nat, rowsThere: nat) returns (out: Timings)
    requires w.Valid() && w.Untouched() && w.readings == Unread
    modifies w
    ensures w.Valid() && w.open == Ground
    ensures w.made == OdbcOpened(out.error)
    ensures OdbcWent(w.log, out.error, useGetData, columns, rowsThere)
    ensures OdbcReported(out, w.readings, useGetData, columns, rowsThere)
    ensures out.columns == if KnowsColumns(out.error) then columns else 0
    ensures out.rows == if out.error == Nothing then rowsThere else 0
    ensures out.error == Nothing ==> PhasesAddUp(out)
  {
    OdbcCodes();
    hide Follows, Then, FirstFailure, Names, Fails, OdbcWorkCalls, OdbcWent, OdbcTimed, OdbcReported, Began,
      World.Valid, World.Untouched, Went;
    var t0, t4, env, dbc, connected, stmt;
    out, t0, t4, env, dbc, connected, stmt := OdbcWork(w, useGetData, columns, rowsThere);
    if out.error != Nothing {
      return;
    }
    WentAll(w.log, OdbcWorkCalls(useGetData, columns, rowsThere));
    ghost var r := w.readings;
    var _ := w.Call(Stmt, CloseCursor);
    OdbcAllWent(w.log, useGetData, columns, rowsThere);
    FreeHandles(w, stmt, connected, dbc, env);
    var t5 := w.Mark();
    OdbcReleaseTimed(out, r, t5, w.log, t0, useGetData, columns, rowsThere);
    out := out.(release := t5 - t4, total := t5 - t0);
    ReportedByOdbc(out, Nothing, w.readings, t0, useGetData, columns, rowsThere);
  }

  lemma OdbcWorkIs(useGetData: bool, columns: nat, rows: nat)
    ensures var b := OdbcBindCalls(Next(OdbcConnectCalls(Start), ExecDirect), columns, useGetData);
            OdbcWorkCalls(useGetData, columns, rows) == OdbcDrainCalls(b, rows, columns, useGetData)
  {
  }

  lemma OdbcAllWent(log: Log, useGetData: bool, columns: nat, rows: nat)
    requires FirstFailure(log) == Nothing && Names(log) == Next(OdbcWorkCalls(useGetData, columns, rows), CloseCursor)
    ensures OdbcWent(log, Nothing, useGetData, columns, rows)
  {
  }

  // ----- what the exits are worth -----------------------------------------------------------

  /** What every exit of both paths guarantees, spelt out. Each handle was released exactly as
      often as it was opened; every use of a handle lies after its opening and before its release; what was
      opened on a handle is released before it; and a stream is asked for a batch only when the one
      before is released. */
  lemma CleanExitMeans(trace: seq<Event>, made: Stack)
    requires Follows(trace, Ground, made)
    ensures forall h :: Closes(trace, h) == Opens(trace, h) == made.Times(h)
    ensures forall i | 0 <= i < |trace| ::
              Opens(trace[..i], trace[i].h) == Closes(trace[..i], trace[i].h) + (if trace[i].Open? then 0 else 1)
    ensures forall i, c | 0 <= i < |trace| && (trace[i].Close? || trace[i].Pull?) && Parent(c) == Some(trace[i].h) ::
              Opens(trace[..i], c) == Closes(trace[..i], c)
  {
    forall h ensures Closes(trace, h) == Opens(trace, h) == made.Times(h) {
      EverythingReleased(trace, h);
    }
    forall i | 0 <= i < |trace|
      ensures Opens(trace[..i], trace[i].h) == Closes(trace[..i], trace[i].h) + (if trace[i].Open? then 0 else 1)
    {
      UseOnlyWhileOpen(trace, i);
    }
    forall i, c | 0 <= i < |trace| && (trace[i].Close? || trace[i].Pull?) && Parent(c) == Some(trace[i].h)
      ensures Opens(trace[..i], c) == Closes(trace[..i], c)
    {
      ChildrenFirst(trace, i, c);
    }
  }
}
