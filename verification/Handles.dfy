/** The handle protocol of the two driver paths: what may be opened, used and released when, and what
    a trace that follows the protocol is worth. */
module Handles {
  import opened Text
  import opened CallLog

  /** What has to be released. The first seven belong to ADBC, the others to ODBC. */
  datatype Handle =
    | Library | Database | Connection | Statement | Stream | Schema | Batch
    | Env | Dbc | Link | Stmt

  /** `Pull` asks a stream for its next batch. */
  datatype Event = Open(h: Handle) | Use(h: Handle) | Pull(h: Handle) | Close(h: Handle)

  /** The handle that another one is opened on, and that must outlive it. */
  function Parent(h: Handle): Option<Handle> {
    match h
    case Library => None
    case Database => Some(Library)
    case Connection => Some(Database)
    case Statement => Some(Connection)
    case Stream => Some(Statement)
    case Schema => Some(Stream)
    case Batch => Some(Stream)
    case Env => None
    case Dbc => Some(Env)
    case Link => Some(Dbc)
    case Stmt => Some(Link)
  }

  /** Handles that were opened one after the other, the latest on top. */
  datatype Stack = Ground | On(below: Stack, top: Handle) {

    function Peek(): Option<Handle> {
      if Ground? then None else Some(top)
    }

    predicate Holds(h: Handle) {
      On? && (top == h || below.Holds(h))
    }

    function Times(h: Handle): nat {
      if Ground? then 0 else below.Times(h) + (if top == h then 1 else 0)
    }
  }

  /** May the event happen with these handles open? */
  predicate Allowed(open: Stack, e: Event) {
    match e
    case Open(h) => open.Peek() == Parent(h)
    case Use(h) => open.Holds(h)
    case Pull(h) => open.Peek() == Some(h)
    case Close(h) => open.Peek() == Some(h)
  }

  function After(open: Stack, e: Event): Stack
    requires Allowed(open, e)
  {
    match e
    case Open(h) => On(open, h)
    case Close(h) => open.below
    case _ => open
  }

  /** The handles open after a trace, if all its events were allowed. */
  function Run(trace: seq<Event>): Option<Stack> {
    if trace == [] then Some(Ground)
    else
      var before := Run(trace[..|trace| - 1]);
      var e := trace[|trace| - 1];
      if before.Some? && Allowed(before.value, e) then Some(After(before.value, e)) else None
  }

  function Opens(trace: seq<Event>, h: Handle): nat {
    if trace == [] then 0
    else Opens(trace[..|trace| - 1], h) + (if trace[|trace| - 1] == Open(h) then 1 else 0)
  }

  function Closes(trace: seq<Event>, h: Handle): nat {
    if trace == [] then 0
    else Closes(trace[..|trace| - 1], h) + (if trace[|trace| - 1] == Close(h) then 1 else 0)
  }

  // ----- what following the protocol means --------------------------------------------------

  /** Open handles are distinct, and each stands directly on its parent. */
  predicate Chain(open: Stack) {
    open.On? ==> Parent(open.top) == open.below.Peek() && !open.below.Holds(open.top) && Chain(open.below)
  }

  /** What is open stands on what it was opened on, so nothing can be opened while it is open. */
  lemma {:induction false} ParentIsBelow(open: Stack, h: Handle)
    requires Chain(open) && open.Holds(h)
    ensures Parent(h).Some? ==> open.Peek() != Parent(h) && open.Holds(Parent(h).value)
    ensures Parent(h).None? ==> open.Peek().Some?
  {
    if open.top != h {
      ParentIsBelow(open.below, h);
    }
  }

  lemma {:induction false} OpenIsChain(trace: seq<Event>)
    requires Run(trace).Some?
    ensures Chain(Run(trace).value)
  {
    if trace == [] {
    } else {
      var init := trace[..|trace| - 1];
      OpenIsChain(init);
      var before := Run(init).value;
      var e := trace[|trace| - 1];
      if before.Holds(e.h) {
        ParentIsBelow(before, e.h);
      }
    }
  }

  /** A handle is open when it was opened once more than it was released, and otherwise it was
      released as often as it was opened. */
  lemma {:induction false} OpenIsCounted(trace: seq<Event>, h: Handle)
    requires Run(trace).Some?
    ensures Opens(trace, h) == Closes(trace, h) + (if Run(trace).value.Holds(h) then 1 else 0)
  {
    if trace == [] {
    } else {
      var init := trace[..|trace| - 1];
      OpenIsCounted(init, h);
      OpenIsChain(init);
      OpenIsChain(trace);
      hide Parent;
    }
  }

  lemma {:induction false} PrefixRuns(trace: seq<Event>, i: nat)
    requires Run(trace).Some? && i <= |trace|
    ensures Run(trace[..i]).Some?
    ensures i < |trace| ==> Allowed(Run(trace[..i]).value, trace[i])
  {
    hide Allowed, After;
    if i == |trace| {
      assert trace[..i] == trace;
    } else {
      var init := trace[..|trace| - 1];
      if i < |init| {
        PrefixRuns(init, i);
        assert init[..i] == trace[..i];
      } else {
        assert trace[..i] == init;
      }
    }
  }

  /** After a trace that follows the protocol and leaves nothing open, every handle was released
      exactly as often as it was opened. */
  lemma EverythingReleased(trace: seq<Event>, h: Handle)
    requires Run(trace) == Some(Ground)
    ensures Opens(trace, h) == Closes(trace, h)
  {
    OpenIsCounted(trace, h);
  }

  /** A handle is used, asked or released only while it is open: after an opening that no release
      followed yet. And it is opened only while it is not. */
  lemma UseOnlyWhileOpen(trace: seq<Event>, i: nat)
    requires Run(trace).Some? && i < |trace|
    ensures Opens(trace[..i], trace[i].h) == Closes(trace[..i], trace[i].h) + (if trace[i].Open? then 0 else 1)
  {
    hide Run, Opens, Closes, Parent;
    PrefixRuns(trace, i);
    OpenIsCounted(trace[..i], trace[i].h);
    OpenIsChain(trace[..i]);
    var open := Run(trace[..i]).value;
    if trace[i].Open? && open.Holds(trace[i].h) {
      ParentIsBelow(open, trace[i].h);
    }
  }

  /** A handle is released only when everything opened on it is released: stream before statement,
      statement before connection, connection before database, database before library. And a
      stream is asked for the next batch only when the last one is released. */
  lemma ChildrenFirst(trace: seq<Event>, i: nat, c: Handle)
    requires Run(trace).Some? && i < |trace| && (trace[i].Close? || trace[i].Pull?)
    requires Parent(c) == Some(trace[i].h)
    ensures Opens(trace[..i], c) == Closes(trace[..i], c)
  {
    hide Run, Opens, Closes, Parent;
    PrefixRuns(trace, i);
    OpenIsChain(trace[..i]);
    OpenIsCounted(trace[..i], c);
    if Run(trace[..i]).value.Holds(c) {
      ParentIsBelow(Run(trace[..i]).value, c);
    }
  }

  lemma CountOpens(trace: seq<Event>, e: Event)
    ensures forall h :: Opens(trace + [e], h) == Opens(trace, h) + (if e == Open(h) then 1 else 0)
  {
    assert (trace + [e])[..|trace|] == trace;
  }

  // ----- the outside world ------------------------------------------------------------------

  function Then(trace: seq<Event>, e: Event): seq<Event> {
    trace + [e]
  }

  /** The trace follows the protocol, with these handles open after it and those opened in it. */
  ghost predicate Follows(trace: seq<Event>, open: Stack, made: Stack) {
    Run(trace) == Some(open) && forall h :: Opens(trace, h) == made.Times(h)
  }

  lemma FollowsOn(trace: seq<Event>, open: Stack, made: Stack, e: Event)
    requires Follows(trace, open, made) && Allowed(open, e)
    ensures Follows(trace + [e], After(open, e), if e.Open? then On(made, e.h) else made)
  {
    CountOpens(trace, e);
    assert (trace + [e])[..|trace|] == trace;
    hide Opens, Allowed, After;
  }

  /** What one more answer does to the names and to the first failure. */
  ghost predicate Continues(before: Log, name: CallName, code: int, after: Log) {
    && Names(after) == Next(Names(before), name)
    && (FirstFailure(before) == Nothing ==> FirstFailure(after) == if Fails(name, code) then name else Nothing)
  }

  /** What foreign code does: it answers as it likes, the trace records what was done to it, and the
      log what it answered. A call has the protocol's condition as its precondition. */
  class World {
    ghost var trace: seq<Event>
    ghost var open: Stack
    ghost var made: Stack
    ghost var log: Log
    ghost var readings: Readings
    var clock: real

    ghost predicate Valid()
      reads this`trace, this`open, this`made
    {
      Follows(trace, open, made)
    }

    /** Nothing happened yet. */
    ghost predicate Untouched()
      reads this`trace, this`open, this`made, this`log
    {
      trace == [] && open == Ground && made == Ground && log == Begin
    }

    constructor ()
      ensures Valid() && Untouched() && readings == Unread
    {
      trace, open, made := [], Ground, Ground;
      log, readings := Begin, Unread;
      clock := 0.0;
    }

    /** A call that needs no handle, with any return code. */
    method Answer(name: CallName) returns (rc: int)
      modifies this`log
      ensures log == Came(old(log), name, rc) && Continues(old(log), name, rc, log)
    {
      rc := *;
      log := Came(log, name, rc);
    }

    /** A new handle. */
    method Acquire(h: Handle)
      requires Valid() && Allowed(open, Open(h))
      modifies this`trace, this`open, this`made
      ensures Valid() && trace == Then(old(trace), Open(h))
      ensures open == On(old(open), h) && made == On(old(made), h)
    {
      FollowsOn(trace, open, made, Open(h));
      trace, open, made := trace + [Open(h)], On(open, h), On(made, h);
    }

    /** A use of an open handle whose answer nobody looks at. */
    method Touch(h: Handle)
      requires Valid() && Allowed(open, Use(h))
      modifies this`trace
      ensures Valid() && trace == Then(old(trace), Use(h)) && open == old(open) && made == old(made)
    {
      FollowsOn(trace, open, made, Use(h));
      trace := trace + [Use(h)];
    }

    /** A call on an open handle, with any outcome. */
    method Call(h: Handle, name: CallName) returns (rc: int)
      requires Valid() && Allowed(open, Use(h))
      modifies this`trace, this`log
      ensures Valid() && trace == Then(old(trace), Use(h)) && open == old(open) && made == old(made)
      ensures log == Came(old(log), name, rc) && Continues(old(log), name, rc, log)
    {
      rc := *;
      Touch(h);
      log := Came(log, name, rc);
    }

    /** A fetch: it answers 100 only when there is no more data, success only when there is some, and
        may fail either way. */
    method CallFetch(h: Handle, name: CallName, more: bool) returns (rc: int)
      requires Valid() && Allowed(open, Use(h))
      modifies this`trace, this`log
      ensures Valid() && trace == Then(old(trace), Use(h)) && open == old(open) && made == old(made)
      ensures log == Came(old(log), name, rc) && Continues(old(log), name, rc, log)
      ensures (rc == 100 ==> !more) && (rc == 0 || rc == 1 ==> more)
    {
      rc := *;
      if more && rc == 100 {
        rc := 0;
      } else if !more && (rc == 0 || rc == 1) {
        rc := 100;
      }
      Touch(h);
      log := Came(log, name, rc);
    }

    /** Asking a stream for its next batch, with any outcome. */
    method AskNext(h: Handle, name: CallName) returns (rc: int)
      requires Valid() && Allowed(open, Pull(h))
      modifies this`trace, this`log
      ensures Valid() && trace == Then(old(trace), Pull(h)) && open == old(open) && made == old(made)
      ensures log == Came(old(log), name, rc) && Continues(old(log), name, rc, log)
    {
      rc := *;
      FollowsOn(trace, open, made, Pull(h));
      trace := trace + [Pull(h)];
      log := Came(log, name, rc);
    }

    /** Releasing a handle ends it whatever it answers; here nobody looks at the answer. */
    method Release(h: Handle)
      requires Valid() && Allowed(open, Close(h))
      modifies this`trace, this`open
      ensures Valid() && trace == Then(old(trace), Close(h)) && open == old(open).below && made == old(made)
    {
      FollowsOn(trace, open, made, Close(h));
      trace, open := trace + [Close(h)], open.below;
    }

    /** A release whose answer is looked at. */
    method CallRelease(h: Handle, name: CallName) returns (rc: int)
      requires Valid() && Allowed(open, Close(h))
      modifies this`trace, this`open, this`log
      ensures Valid() && trace == Then(old(trace), Close(h)) && open == old(open).below && made == old(made)
      ensures log == Came(old(log), name, rc) && Continues(old(log), name, rc, log)
    {
      rc := *;
      Release(h);
      log := Came(log, name, rc);
    }

    /** A steady clock. */
    method Now() returns (t: real)
      modifies this`clock
      ensures t == clock >= old(clock)
    {
      t := *;
      if t < clock {
        t := clock;
      }
      clock := t;
    }

    /** Reading the clock between two phases. */
    method Mark() returns (t: real)
      modifies this`clock, this`readings
      ensures t == clock >= old(clock)
      ensures readings == Read(old(readings), t, log)
    {
      t := Now();
      readings := Read(readings, t, log);
    }
  }
}
