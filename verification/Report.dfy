/** The report over all logs: what it reads, whatever became of the engines' processes. */
module Report {
  import opened Text
  import opened RunLoop
  import opened Cells

  predicate IsLogPath(path: string) {
    |path| >= |LOG_SUFFIX| && path[|path| - |LOG_SUFFIX|..] == LOG_SUFFIX
  }

  /** The paths are those of the logs, each once, in any order. */
  ghost predicate Lists(paths: seq<string>, files: Files) {
    Distinct(paths) && forall p :: p in paths <==> p in files && IsLogPath(p)
  }

  function RecordsAt(files: Files, path: string): seq<Record> {
    if path in files && files[path].LogFile? then files[path].recs else []
  }

  /** `load_records`: the records of all logs, one log after the other. */
  function LoadRecords(files: Files, paths: seq<string>): seq<Record> {
    if paths == [] then [] else RecordsAt(files, paths[0]) + LoadRecords(files, paths[1..])
  }

  lemma SuffixesDiffer(engine: string)
    ensures IsLogPath(LogPath(engine)) && !IsLogPath(FragmentPath(engine))
  {
    var l, f := LogPath(engine), FragmentPath(engine);
    assert l[|l| - |LOG_SUFFIX|..] == LOG_SUFFIX;
    assert f[|f| - 1] == 'n';
    assert f[|f| - |LOG_SUFFIX|..][|LOG_SUFFIX| - 1] == f[|f| - 1];
  }

  /** Each log holds records of the engine whose path it has, and of no other. */
  ghost predicate LogsAreOwn(files: Files) {
    forall p | p in files && IsLogPath(p) ::
      files[p].LogFile? && forall r | r in files[p].recs :: LogPath(r.engine) == p
  }

  lemma ChildLogIsOwn(engine: string, wls: seq<Workload>, answers: seq<Answer>)
    ensures var log := ChildRun(engine, wls, answers).log;
            log.Some? ==> forall r | r in log.value :: r.engine == engine
  {
    hide WorkloadsRun, CatalogRun;
    AllOfEngine(engine, wls, answers, CatalogRun(engine, wls, answers, 3).pos);
  }

  lemma LogsStayOwn(files: Files, engine: string, r: Remains)
    requires LogsAreOwn(files) && (r.log.Some? ==> forall x | x in r.log.value :: x.engine == engine)
    ensures LogsAreOwn(AfterChild(files, engine, r))
  {
    SuffixesDiffer(engine);
    hide LogPath, FragmentPath, IsLogPath;
  }

  lemma {:induction false} AllLogsAreOwn(engines: seq<string>, wls: seq<Workload>, fates: seq<seq<Answer>>)
    requires |engines| == |fates|
    ensures LogsAreOwn(AfterChildren(engines, wls, fates))
  {
    hide AfterChild, ChildRun, LogPath, IsLogPath;
    if engines == [] {
    } else {
      var k := |engines| - 1;
      AllLogsAreOwn(engines[..k], wls, fates[..k]);
      ChildLogIsOwn(engines[k], wls, fates[k]);
      hide LogsAreOwn;
      LogsStayOwn(AfterChildren(engines[..k], wls, fates[..k]), engines[k], ChildRun(engines[k], wls, fates[k]));
    }
  }

  lemma OtherLogsAreForeign(files: Files, path: string, key: Key)
    requires LogsAreOwn(files) && path in files && IsLogPath(path) && path != LogPath(key.engine)
    ensures OfCell(RecordsAt(files, path), key) == []
  {
    hide LogPath, IsLogPath;
    ForeignCell(files[path].recs, key);
  }

  lemma {:induction false} CellOfAllLogs(files: Files, paths: seq<string>, key: Key)
    requires LogsAreOwn(files) && Distinct(paths) && forall p | p in paths :: p in files && IsLogPath(p)
    ensures OfCell(LoadRecords(files, paths), key) ==
            if LogPath(key.engine) in paths then OfCell(RecordsAt(files, LogPath(key.engine)), key) else []
  {
    hide LogsAreOwn, LogPath, IsLogPath, OfCell, RecordsAt;
    if paths == [] {
      NoCell(key);
    } else {
      var here, rest := RecordsAt(files, paths[0]), LoadRecords(files, paths[1..]);
      CellOfAllLogs(files, paths[1..], key);
      OfCellAppend(here, rest, key);
      if paths[0] == LogPath(key.engine) {
        assert paths[0] !in paths[1..];
      } else {
        OtherLogsAreForeign(files, paths[0], key);
      }
    }
  }

  lemma NoCell(key: Key)
    ensures OfCell([], key) == []
  {
  }

  /** The log that an engine left; none is like an empty one. */
  function LeftBy(engine: string, wls: seq<Workload>, answers: seq<Answer>): seq<Record> {
    var log := ChildRun(engine, wls, answers).log;
    if log.Some? then log.value else []
  }

  /** The cell of an engine in the whole report is its cell in the log that its own child left,
      whatever became of the other engines; and there are no cells of engines that were not asked for. */
  lemma ReportedCell(
    engines: seq<string>, wls: seq<Workload>, fates: seq<seq<Answer>>, paths: seq<string>, key: Key)
    requires |engines| == |fates| && Distinct(engines)
    requires Lists(paths, AfterChildren(engines, wls, fates))
    ensures var all := LoadRecords(AfterChildren(engines, wls, fates), paths);
            && (forall k | 0 <= k < |engines| && engines[k] == key.engine ::
                  OfCell(all, key) == OfCell(LeftBy(key.engine, wls, fates[k]), key))
            && (key.engine !in engines ==> OfCell(all, key) == [])
  {
    hide AfterChildren, ChildRun, LogPath, IsLogPath, OfCell, LogsAreOwn;
    var files := AfterChildren(engines, wls, fates);
    AllLogsAreOwn(engines, wls, fates);
    CellOfAllLogs(files, paths, key);
    FilesAreOwn(engines, wls, fates, key.engine);
    SuffixesDiffer(key.engine);
    NoCell(key);
  }

  /** Crash durability and conservation for the whole report: for every fate of every child, each cell
      is a prefix of its step's schedule, has no more cold and warm timings than runs were asked for,
      and with the failures these are all its records. */
  lemma ReportedCells(
    engines: seq<string>, wls: seq<Workload>, fates: seq<seq<Answer>>, paths: seq<string>, wl: Workload, key: Key)
    requires |engines| == |fates| && Distinct(engines)
    requires Lists(paths, AfterChildren(engines, wls, fates))
    requires DistinctNames(wls) && wl in wls && wl.name == key.workload && Distinct(wl.measured)
    ensures var cell := OfCell(LoadRecords(AfterChildren(engines, wls, fates), paths), key);
            var s := StatsOf(cell);
            && SlotsOf(cell) <= StepSlots(key.step, wl.coldRuns, wl.warmRuns)
            && |s.cold| <= wl.coldRuns && |s.warm| <= wl.warmRuns
            && |s.cold| + |s.warm| + s.failures == |cell|
  {
    hide AfterChildren, ChildRun, OfCell, StepSlots, Walls, Failures, RowCounts, FirstSha, Lists, LoadRecords;
    ReportedCell(engines, wls, fates, paths, key);
    var cell := OfCell(LoadRecords(AfterChildren(engines, wls, fates), paths), key);
    if key.engine in engines {
      var k :| 0 <= k < |engines| && engines[k] == key.engine;
      if ChildRun(key.engine, wls, fates[k]).log.Some? {
        CrashedCells(key.engine, wls, fates[k], wl, key);
      } else {
        NoCell(key);
      }
    }
    assert cell == [] ==> SlotsOf(cell) == [];
    PrefixCounts(cell, key.step, wl.coldRuns, wl.warmRuns);
    StatsConserve(cell);
  }

  /** The same bounds when workloads are named more than once. */
  lemma ReportedCellsBounded(
    engines: seq<string>, wls: seq<Workload>, fates: seq<seq<Answer>>, paths: seq<string>, wl: Workload, key: Key)
    requires |engines| == |fates| && Distinct(engines)
    requires Lists(paths, AfterChildren(engines, wls, fates))
    requires NamesOneWorkload(wls, wl) && wl.name == key.workload
    ensures var cell := OfCell(LoadRecords(AfterChildren(engines, wls, fates), paths), key);
            var s := StatsOf(cell);
            && |s.cold| <= Times(wls, key.workload) * Share(wl, key.step, true)
            && |s.warm| <= Times(wls, key.workload) * Share(wl, key.step, false)
            && |s.cold| + |s.warm| + s.failures == |cell|
  {
    hide AfterChildren, ChildRun, OfCell, Share, Walls, Failures, RowCounts, FirstSha, Lists, LoadRecords;
    ReportedCell(engines, wls, fates, paths, key);
    var cell := OfCell(LoadRecords(AfterChildren(engines, wls, fates), paths), key);
    NoCell(key);
    NoWalls(key, true);
    NoWalls(key, false);
    if key.engine in engines {
      var k :| 0 <= k < |engines| && engines[k] == key.engine;
      if ChildRun(key.engine, wls, fates[k]).log.Some? {
        CrashedCellsBounded(key.engine, wls, fates[k], wl, key);
      }
    }
    StatsConserve(cell);
  }
}
