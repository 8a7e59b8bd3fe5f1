/** Crash-resumable migrations (migrate.py). The schema is whatever the statements act on;
    DDL commits by itself, anything else commits together with its count. */
module Migrations {
  import opened Common

  type Name = nat

  /** The checksum is modelled as the source it covers. */
  datatype File = File(name: Name, source: string)

  datatype Row = Row(checksum: string, applied: int)

  /** A row that predates statement counting is complete. */
  const LEGACY := -1

  /** How the server and the splitter treat text: which statements commit implicitly, and
      what a statement does, None when it fails. */
  datatype Server<!S> = Server(split: string -> seq<string>, ddl: string -> bool, run: (S, string) -> Option<S>)

  /** `log` is history: each statement whose effect has been committed, oldest first. */
  datatype Db<S> = Db(schema: S, tracking: map<Name, Row>, log: seq<(Name, nat)>)

  // ---- One unit of work -------------------------------------------------------

  datatype Work = Register(file: File) | Execute(file: File, index: nat) | Modified(file: File) | Done

  /** What a run does next: files in name order, each resumed where its row says. */
  function NextWork<S>(server: Server<S>, tracking: map<Name, Row>, files: seq<File>): (w: Work)
    ensures w.Execute? ==> w.file.name in tracking && w.index == tracking[w.file.name].applied
    ensures w.Execute? ==> w.index < |server.split(w.file.source)| && tracking[w.file.name].checksum == w.file.source
    ensures w.Register? ==> w.file.name !in tracking
  {
    if files == [] then
      Done
    else
      var f := files[0];
      if f.name !in tracking then Register(f)
      else if tracking[f.name].checksum != f.source then Modified(f)
      else if Finished(server, tracking[f.name], f) then NextWork(server, tracking, files[1..])
      else Execute(f, tracking[f.name].applied)
  }

  /** Skip the file: legacy, or every statement counted. */
  predicate Finished<S>(server: Server<S>, row: Row, f: File) {
    row.applied < 0 || row.applied >= |server.split(f.source)|
  }

  function Recorded<S>(db: Db<S>, f: File, applied: int): map<Name, Row> {
    db.tracking[f.name := Row(f.source, applied)]
  }

  /** One committed unit: a new tracking row, or a statement with its count. */
  function Unit<S>(server: Server<S>, db: Db<S>, files: seq<File>): Option<Db<S>> {
    match NextWork(server, db.tracking, files)
    case Register(f) => Some(db.(tracking := Recorded(db, f, 0)))
    case Execute(f, i) =>
      (match server.run(db.schema, server.split(f.source)[i])
       case None => None
       case Some(t) => Some(Db(t, Recorded(db, f, i + 1), db.log + [(f.name, i)])))
    case Modified(_) => None
    case Done => None
  }

  /** A crash between a statement and the commit of its count: DDL has taken effect, other
      statements are rolled back. */
  function Interrupted<S>(server: Server<S>, db: Db<S>, files: seq<File>): Db<S> {
    match NextWork(server, db.tracking, files)
    case Execute(f, i) =>
      var statement := server.split(f.source)[i];
      if !server.ddl(statement) then
        db
      else
        (match server.run(db.schema, statement)
         case None => db
         case Some(t) => Db(t, db.tracking, db.log + [(f.name, i)]))
    case _ => db
  }

  function Units<S>(server: Server<S>, db: Db<S>, files: seq<File>, n: nat): Db<S>
    decreases n
  {
    if n == 0 then
      db
    else
      var next := Unit(server, db, files);
      if next.None? then db else Units(server, next.value, files, n - 1)
  }

  /** One run of the migrator: it completes `units` units, then stops or crashes, perhaps in
      the middle of a statement. The migrator lock keeps runs apart. */
  datatype Attempt = Attempt(files: seq<File>, units: nat, torn: bool)

  function AfterAttempt<S>(server: Server<S>, db: Db<S>, a: Attempt): Db<S> {
    var reached := Units(server, db, a.files, a.units);
    if a.torn then Interrupted(server, reached, a.files) else reached
  }

  function History<S>(server: Server<S>, db: Db<S>, attempts: seq<Attempt>): Db<S> {
    if attempts == [] then db
    else AfterAttempt(server, History(server, db, attempts[..|attempts| - 1]), attempts[|attempts| - 1])
  }

  // ---- The log of one file ----------------------------------------------------

  /** Indices of the file's statements in the order they took effect. */
  function Executed(log: seq<(Name, nat)>, name: Name): seq<nat> {
    if log == [] then
      []
    else
      var last := log[|log| - 1];
      Executed(log[..|log| - 1], name) + if last.0 == name then [last.1] else []
  }

  /** From statement 0 upwards, repeating only the last one, and at most one statement
      beyond the recorded count. */
  ghost predicate Climbs(s: seq<nat>, applied: int) {
    && (|s| > 0 ==> s[0] == 0)
    && (forall k :: 0 <= k < |s| - 1 ==> Follows(s[k], s[k + 1]))
    && (if s == [] then applied <= 0 else 0 <= applied && applied - 1 <= s[|s| - 1] <= applied)
  }

  predicate Follows(a: nat, b: nat) {
    b == a || b == a + 1
  }

  ghost predicate Tracked<S>(db: Db<S>) {
    forall name: Name ::
      if name in db.tracking then
        Climbs(Executed(db.log, name), db.tracking[name].applied)
      else
        Executed(db.log, name) == []
  }

  lemma LogOneMore(log: seq<(Name, nat)>, entry: (Name, nat), name: Name)
    ensures Executed(log + [entry], name) == Executed(log, name) + if entry.0 == name then [entry.1] else []
  {
    assert (log + [entry])[..|log|] == log;
  }

  lemma ClimbsOneMore(s: seq<nat>, applied: nat, counted: bool)
    requires Climbs(s, applied)
    ensures Climbs(s + [applied], if counted then applied + 1 else applied)
  {
    var t := s + [applied];
    forall k | 0 <= k < |t| - 1
      ensures Follows(t[k], t[k + 1])
    {
      assert k < |s| - 1 ==> Follows(s[k], s[k + 1]);
    }
  }

  lemma StatementTracked<S>(before: Db<S>, after: Db<S>, f: File, i: nat, counted: bool)
    requires Tracked(before) && f.name in before.tracking && before.tracking[f.name].applied == i
    requires after.log == before.log + [(f.name, i)]
    requires after.tracking == if counted then Recorded(before, f, i + 1) else before.tracking
    ensures Tracked(after)
  {
    forall name: Name
      ensures if name in after.tracking then Climbs(Executed(after.log, name), after.tracking[name].applied)
              else Executed(after.log, name) == []
    {
      LogOneMore(before.log, (f.name, i), name);
      if name == f.name {
        ClimbsOneMore(Executed(before.log, name), i, counted);
      }
    }
  }

  lemma UnitTracked<S>(server: Server<S>, db: Db<S>, files: seq<File>)
    requires Tracked(db)
    ensures Unit(server, db, files).Some? ==> Tracked(Unit(server, db, files).value)
    ensures Tracked(Interrupted(server, db, files))
  {
    var w := NextWork(server, db.tracking, files);
    if w.Execute? {
      if Unit(server, db, files).Some? {
        StatementTracked(db, Unit(server, db, files).value, w.file, w.index, true);
      }
      if Interrupted(server, db, files).log != db.log {
        StatementTracked(db, Interrupted(server, db, files), w.file, w.index, false);
      }
    }
  }

  lemma {:induction false} UnitsTracked<S>(server: Server<S>, db: Db<S>, files: seq<File>, n: nat)
    requires Tracked(db)
    ensures Tracked(Units(server, db, files, n))
    decreases n
  {
    if n > 0 && Unit(server, db, files).Some? {
      UnitTracked(server, db, files);
      UnitsTracked(server, Unit(server, db, files).value, files, n - 1);
    }
  }

  /** Whatever crashes and restarts happen, and whatever files each run finds, every file's
      statements take effect in order with only immediate repeats, at most one of them
      beyond the recorded count. */
  lemma {:induction false} EveryHistoryTracked<S>(server: Server<S>, db: Db<S>, attempts: seq<Attempt>)
    requires Tracked(db)
    ensures Tracked(History(server, db, attempts))
  {
    if attempts != [] {
      var a, before := attempts[|attempts| - 1], History(server, db, attempts[..|attempts| - 1]);
      EveryHistoryTracked(server, db, attempts[..|attempts| - 1]);
      UnitsTracked(server, before, a.files, a.units);
      UnitTracked(server, Units(server, before, a.files, a.units), a.files);
    }
  }

  // ---- The final schema -------------------------------------------------------

  /** The first `n` statements run once each. */
  function Clean<S>(server: Server<S>, s: S, statements: seq<string>, n: nat): Option<S>
    requires n <= |statements|
  {
    if n == 0 then
      Some(s)
    else
      match Clean(server, s, statements, n - 1)
      case None => None
      case Some(t) => server.run(t, statements[n - 1])
  }

  /** One undisturbed run over a database where only legacy rows exist. */
  function CleanRun<S>(server: Server<S>, s: S, legacy: set<Name>, files: seq<File>): Option<S> {
    if files == [] then
      Some(s)
    else if files[0].name in legacy then
      CleanRun(server, s, legacy, files[1..])
    else
      var statements := server.split(files[0].source);
      match Clean(server, s, statements, |statements|)
      case None => None
      case Some(t) => CleanRun(server, t, legacy, files[1..])
  }

  /** Where a statement has just taken effect, repeating it fails or changes nothing. */
  predicate Harmless<S(==)>(server: Server<S>, schema: S, statement: string) {
    server.run(schema, statement).None? || server.run(schema, statement) == Some(schema)
  }

  /** A crash now tears no statement, or one that is harmless to repeat. */
  predicate SafeTear<S(==)>(server: Server<S>, db: Db<S>, files: seq<File>) {
    match NextWork(server, db.tracking, files)
    case Execute(f, i) =>
      var statement := server.split(f.source)[i];
      server.ddl(statement) && server.run(db.schema, statement).Some? ==>
        Harmless(server, server.run(db.schema, statement).value, statement)
    case _ => true
  }

  /** Every statement actually torn in the history was harmless to repeat. */
  predicate SafeTears<S(==)>(server: Server<S>, db: Db<S>, attempts: seq<Attempt>) {
    attempts == [] ||
    var front, a := attempts[..|attempts| - 1], attempts[|attempts| - 1];
    && SafeTears(server, db, front)
    && (a.torn ==> SafeTear(server, Units(server, History(server, db, front), a.files, a.units), a.files))
  }

  predicate DistinctNames(files: seq<File>) {
    forall i, j :: 0 <= i < j < |files| ==> files[i].name != files[j].name
  }

  /** None of the files has been started. */
  predicate NotStarted(tracking: map<Name, Row>, legacy: set<Name>, files: seq<File>) {
    forall f :: f in files && f.name !in legacy ==> f.name !in tracking
  }

  /** The schema is the clean run as far as the counts say, or one uncounted
      implicit-commit statement further; files start only after the earlier ones ended. */
  ghost predicate Resumable<S>(
    server: Server<S>, s: S, legacy: set<Name>, tracking: map<Name, Row>, files: seq<File>, schema: S)
  {
    if files == [] then
      schema == s
    else
      var f, later := files[0], files[1..];
      if f.name in legacy then
        && f.name in tracking && tracking[f.name].applied == LEGACY
        && Resumable(server, s, legacy, tracking, later, schema)
      else if f.name !in tracking then
        NotStarted(tracking, legacy, later) && LegacyRows(tracking, legacy, later) && schema == s
      else
        && tracking[f.name].checksum == f.source
        && var statements, n := server.split(f.source), tracking[f.name].applied;
           && 0 <= n <= |statements|
           && var clean := Clean(server, s, statements, n);
              clean.Some?
              && if n == |statements| then
                   Resumable(server, clean.value, legacy, tracking, later, schema)
                 else
                   && NotStarted(tracking, legacy, later) && LegacyRows(tracking, legacy, later)
                   && (schema == clean.value || Torn(server, clean.value, statements[n], schema))
  }

  /** The statement has taken effect without being counted. */
  predicate Torn<S(==)>(server: Server<S>, clean: S, statement: string, schema: S) {
    server.ddl(statement) && server.run(clean, statement) == Some(schema) && Harmless(server, schema, statement)
  }

  predicate LegacyRows(tracking: map<Name, Row>, legacy: set<Name>, files: seq<File>) {
    forall f :: f in files && f.name in legacy ==> f.name in tracking && tracking[f.name].applied == LEGACY
  }

  lemma {:induction false} FreshIsResumable<S>(
    server: Server<S>, s: S, legacy: set<Name>, tracking: map<Name, Row>, files: seq<File>)
    requires NotStarted(tracking, legacy, files) && LegacyRows(tracking, legacy, files)
    ensures Resumable(server, s, legacy, tracking, files, s)
  {
    if files != [] && files[0].name in legacy {
      FreshIsResumable(server, s, legacy, tracking, files[1..]);
    }
  }

  /** Rows of other names do not matter. */
  lemma {:induction false} ResumableFrame<S>(
    server: Server<S>, s: S, legacy: set<Name>, a: map<Name, Row>, b: map<Name, Row>, files: seq<File>, schema: S)
    requires Resumable(server, s, legacy, a, files, schema)
    requires forall f :: f in files ==> (f.name in a <==> f.name in b) && (f.name in a ==> a[f.name] == b[f.name])
    ensures Resumable(server, s, legacy, b, files, schema)
  {
    if files != [] {
      var f, later := files[0], files[1..];
      if f.name in legacy {
        ResumableFrame(server, s, legacy, a, b, later, schema);
      } else if f.name in a && a[f.name].applied == |server.split(f.source)| {
        ResumableFrame(
          server, Clean(server, s, server.split(f.source), a[f.name].applied).value, legacy, a, b, later, schema);
      }
    }
  }

  /** Running statement `n` catches up with the clean run, torn before or not. */
  lemma CleanStep<S>(server: Server<S>, s: S, statements: seq<string>, n: nat, schema: S)
    requires n < |statements| && Clean(server, s, statements, n).Some?
    requires var clean := Clean(server, s, statements, n).value;
      schema == clean || Torn(server, clean, statements[n], schema)
    requires server.run(schema, statements[n]).Some?
    ensures Clean(server, s, statements, n + 1) == server.run(schema, statements[n])
  {
  }

  /** A committed unit stays on the clean path. */
  lemma {:induction false} UnitResumable<S>(server: Server<S>, s: S, legacy: set<Name>, db: Db<S>, files: seq<File>)
    requires DistinctNames(files)
    requires Resumable(server, s, legacy, db.tracking, files, db.schema)
    requires Unit(server, db, files).Some?
    ensures var after := Unit(server, db, files).value;
      Resumable(server, s, legacy, after.tracking, files, after.schema)
    decreases |files|
  {
    var f, later := files[0], files[1..];
    if f.name in legacy {
      UnitResumable(server, s, legacy, db, later);
    } else if f.name !in db.tracking {
      RegisterResumable(server, s, legacy, db, files);
    } else {
      var statements, n := server.split(f.source), db.tracking[f.name].applied;
      if n == |statements| {
        UnitResumable(server, Clean(server, s, statements, n).value, legacy, db, later);
      } else {
        ExecuteResumable(server, s, legacy, db, files);
      }
    }
  }

  lemma RegisterResumable<S>(server: Server<S>, s: S, legacy: set<Name>, db: Db<S>, files: seq<File>)
    requires DistinctNames(files) && Resumable(server, s, legacy, db.tracking, files, db.schema)
    requires files != [] && files[0].name !in legacy && files[0].name !in db.tracking
    ensures Resumable(server, s, legacy, Recorded(db, files[0], 0), files, db.schema)
  {
    if |server.split(files[0].source)| == 0 {
      FreshIsResumable(server, s, legacy, Recorded(db, files[0], 0), files[1..]);
    }
  }

  lemma ExecuteResumable<S>(server: Server<S>, s: S, legacy: set<Name>, db: Db<S>, files: seq<File>)
    requires DistinctNames(files) && Resumable(server, s, legacy, db.tracking, files, db.schema)
    requires files != [] && files[0].name !in legacy && files[0].name in db.tracking
    requires db.tracking[files[0].name].applied < |server.split(files[0].source)|
    requires Unit(server, db, files).Some?
    ensures var after := Unit(server, db, files).value;
      Resumable(server, s, legacy, after.tracking, files, after.schema)
  {
    var after := Unit(server, db, files).value;
    var statements, n := server.split(files[0].source), db.tracking[files[0].name].applied;
    CleanStep(server, s, statements, n, db.schema);
    if n + 1 == |statements| {
      FreshIsResumable(server, after.schema, legacy, after.tracking, files[1..]);
    }
  }

  lemma {:induction false} InterruptedResumable<S>(
    server: Server<S>, s: S, legacy: set<Name>, db: Db<S>, files: seq<File>)
    requires SafeTear(server, db, files)
    requires Resumable(server, s, legacy, db.tracking, files, db.schema)
    ensures var after := Interrupted(server, db, files);
      after.tracking == db.tracking && Resumable(server, s, legacy, db.tracking, files, after.schema)
    decreases |files|
  {
    if files != [] {
      var f, later := files[0], files[1..];
      if f.name in legacy {
        if NextWork(server, db.tracking, files) == NextWork(server, db.tracking, later) {
          InterruptedResumable(server, s, legacy, db, later);
        }
      } else if f.name in db.tracking && db.tracking[f.name].applied == |server.split(f.source)| {
        InterruptedResumable(
          server, Clean(server, s, server.split(f.source), db.tracking[f.name].applied).value, legacy, db, later);
      }
    }
  }

  lemma {:induction false} UnitsResumable<S>(
    server: Server<S>, s: S, legacy: set<Name>, db: Db<S>, files: seq<File>, n: nat)
    requires DistinctNames(files)
    requires Resumable(server, s, legacy, db.tracking, files, db.schema)
    ensures var after := Units(server, db, files, n); Resumable(server, s, legacy, after.tracking, files, after.schema)
    decreases n
  {
    if n > 0 && Unit(server, db, files).Some? {
      UnitResumable(server, s, legacy, db, files);
      UnitsResumable(server, s, legacy, Unit(server, db, files).value, files, n - 1);
    }
  }

  // ---- Lists that grow by later files -----------------------------------------

  /** A run over the first files does what a run over all of them would, or is done. */
  lemma {:induction false} PrefixWork<S>(
    server: Server<S>, tracking: map<Name, Row>, first: seq<File>, files: seq<File>)
    requires first <= files
    ensures !NextWork(server, tracking, first).Done? ==>
      NextWork(server, tracking, first) == NextWork(server, tracking, files)
  {
    if first != [] {
      assert first[1..] <= files[1..];
      PrefixWork(server, tracking, first[1..], files[1..]);
    }
  }

  lemma {:induction false} PrefixUnits<S>(server: Server<S>, db: Db<S>, first: seq<File>, files: seq<File>, n: nat)
    returns (m: nat)
    requires first <= files
    ensures Units(server, db, first, n) == Units(server, db, files, m)
    decreases n
  {
    m := 0;
    PrefixWork(server, db.tracking, first, files);
    if n > 0 && Unit(server, db, first).Some? {
      m := PrefixUnits(server, Unit(server, db, first).value, first, files, n - 1);
      m := m + 1;
    }
  }

  /** No run has seen other files than the first ones of the final list. */
  ghost predicate Growing(attempts: seq<Attempt>, files: seq<File>) {
    forall a :: a in attempts ==> a.files <= files
  }

  lemma AttemptResumable<S>(server: Server<S>, s: S, legacy: set<Name>, db: Db<S>, files: seq<File>, a: Attempt)
    requires DistinctNames(files) && a.files <= files
    requires Resumable(server, s, legacy, db.tracking, files, db.schema)
    requires a.torn ==> SafeTear(server, Units(server, db, a.files, a.units), a.files)
    ensures var after := AfterAttempt(server, db, a); Resumable(server, s, legacy, after.tracking, files, after.schema)
  {
    var reached := Units(server, db, a.files, a.units);
    var m := PrefixUnits(server, db, a.files, files, a.units);
    UnitsResumable(server, s, legacy, db, files, m);
    if a.torn {
      PrefixWork(server, reached.tracking, a.files, files);
      if !NextWork(server, reached.tracking, a.files).Done? {
        InterruptedResumable(server, s, legacy, reached, files);
      }
    }
  }

  /** Any number of crashed runs, over a list of files that may grow at its end, leaves the
      schema on the clean path; earlier files are finished before a later one starts. */
  lemma {:induction false} HistoryResumable<S>(
    server: Server<S>, s: S, legacy: set<Name>, start: map<Name, Row>, files: seq<File>, attempts: seq<Attempt>)
    requires DistinctNames(files) && Growing(attempts, files) && SafeTears(server, Db(s, start, []), attempts)
    requires NotStarted(start, legacy, files) && LegacyRows(start, legacy, files)
    ensures var after := History(server, Db(s, start, []), attempts);
      Resumable(server, s, legacy, after.tracking, files, after.schema)
  {
    if attempts == [] {
      FreshIsResumable(server, s, legacy, start, files);
    } else {
      var front, a := attempts[..|attempts| - 1], attempts[|attempts| - 1];
      assert attempts == front + [a];
      HistoryResumable(server, s, legacy, start, files, front);
      AttemptResumable(server, s, legacy, History(server, Db(s, start, []), front), files, a);
    }
  }

  lemma {:induction false} DoneIsClean<S>(
    server: Server<S>, s: S, legacy: set<Name>, tracking: map<Name, Row>, files: seq<File>, schema: S)
    requires Resumable(server, s, legacy, tracking, files, schema) && NextWork(server, tracking, files) == Done
    ensures CleanRun(server, s, legacy, files) == Some(schema)
  {
    if files != [] {
      var f := files[0];
      if f.name in legacy {
        DoneIsClean(server, s, legacy, tracking, files[1..], schema);
      } else {
        var statements := server.split(f.source);
        DoneIsClean(server, Clean(server, s, statements, |statements|).value, legacy, tracking, files[1..], schema);
      }
    }
  }

  /** Once the work is done, the schema is that of one undisturbed run. Only statements that
      were really torn matter, and only where they were torn. */
  lemma FinalSchemaIsClean<S>(
    server: Server<S>, s: S, legacy: set<Name>, start: map<Name, Row>, files: seq<File>, attempts: seq<Attempt>)
    requires DistinctNames(files) && Growing(attempts, files) && SafeTears(server, Db(s, start, []), attempts)
    requires NotStarted(start, legacy, files) && LegacyRows(start, legacy, files)
    ensures var after := History(server, Db(s, start, []), attempts);
      NextWork(server, after.tracking, files) == Done ==> CleanRun(server, s, legacy, files) == Some(after.schema)
  {
    var after := History(server, Db(s, start, []), attempts);
    HistoryResumable(server, s, legacy, start, files, attempts);
    if NextWork(server, after.tracking, files) == Done {
      DoneIsClean(server, s, legacy, after.tracking, files, after.schema);
    }
  }

  /** A crash now would tear no implicit-commit statement. */
  predicate TearsNothing<S>(server: Server<S>, db: Db<S>, files: seq<File>) {
    match NextWork(server, db.tracking, files)
    case Execute(f, i) => !server.ddl(server.split(f.source)[i])
    case _ => true
  }

  /** No attempt was cut off in the middle of an implicit-commit statement, whatever else its
      files contain. */
  predicate NothingTorn<S>(server: Server<S>, db: Db<S>, attempts: seq<Attempt>) {
    attempts == [] ||
    var front, a := attempts[..|attempts| - 1], attempts[|attempts| - 1];
    && NothingTorn(server, db, front)
    && (a.torn ==> TearsNothing(server, Units(server, History(server, db, front), a.files, a.units), a.files))
  }

  /** Such a history needs no condition. */
  lemma {:induction false} NothingTornIsSafe<S>(server: Server<S>, db: Db<S>, attempts: seq<Attempt>)
    requires NothingTorn(server, db, attempts)
    ensures SafeTears(server, db, attempts)
  {
    if attempts != [] {
      NothingTornIsSafe(server, db, attempts[..|attempts| - 1]);
    }
  }

  /** A torn implicit-commit statement, once resumed, is completed with a wrong schema
      exactly when it was not harmless to repeat; any other statement is never repeated. */
  lemma TornStatement<S>(server: Server<S>, db: Db<S>, files: seq<File>)
    requires NextWork(server, db.tracking, files).Execute? && Unit(server, db, files).Some?
    ensures var w := NextWork(server, db.tracking, files);
      var x, clean := server.split(w.file.source)[w.index], Unit(server, db, files);
      var resumed := Unit(server, Interrupted(server, db, files), files);
      && (server.ddl(x) ==>
           (resumed.Some? && resumed.value.schema != clean.value.schema <==> !SafeTear(server, db, files)))
      && (server.ddl(x) ==> (resumed.None? <==> server.run(clean.value.schema, x).None?))
      && (!server.ddl(x) ==> resumed == clean)
  {
  }

  lemma HistoryOneMore<S>(server: Server<S>, db: Db<S>, attempts: seq<Attempt>, a: Attempt)
    ensures History(server, db, attempts + [a]) == AfterAttempt(server, History(server, db, attempts), a)
  {
    assert (attempts + [a])[..|attempts|] == attempts;
  }

  /** After any history, a run that is cut off in an implicit-commit statement and then
      resumed either ends where an undisturbed run does, or is stuck there uncounted, or
      counts the statement over a wrong schema: exactly when repeating the statement changes
      nothing, fails, or does neither. */
  lemma CrashAndResumeExactly<S>(server: Server<S>, db: Db<S>, attempts: seq<Attempt>, files: seq<File>, k: nat)
    requires Survives(server, History(server, db, attempts), files, k)
    requires var reached := Units(server, History(server, db, attempts), files, k);
      && Unit(server, reached, files).Some? && NextWork(server, reached.tracking, files).Execute?
      && !TearsNothing(server, reached, files)
    ensures var reached := Units(server, History(server, db, attempts), files, k);
      var w := NextWork(server, reached.tracking, files);
      var resumed := History(server, db, attempts + [Attempt(files, k, true)] + [Attempt(files, 1, false)]);
      var smooth := History(server, db, attempts + [Attempt(files, k + 1, false)]);
      var again := server.run(smooth.schema, server.split(w.file.source)[w.index]);
      && (again == Some(smooth.schema) <==> resumed.schema == smooth.schema && resumed.tracking == smooth.tracking)
      && (again.None? <==> resumed.schema == smooth.schema && resumed.tracking == reached.tracking)
      && (!SafeTear(server, reached, files) <==> resumed.schema != smooth.schema)
  {
    var before := History(server, db, attempts);
    var reached := Units(server, before, files, k);
    var crashed := attempts + [Attempt(files, k, true)];
    UnitTaken(server, before, reached, Unit(server, reached, files).value, files, k);
    HistoryOneMore(server, db, attempts, Attempt(files, k + 1, false));
    HistoryOneMore(server, db, attempts, Attempt(files, k, true));
    HistoryOneMore(server, db, crashed, Attempt(files, 1, false));
    TornStatement(server, reached, files);
    OneUnit(server, Interrupted(server, reached, files), files);
  }

  lemma OneUnit<S>(server: Server<S>, db: Db<S>, files: seq<File>)
    ensures Units(server, db, files, 1) == if Unit(server, db, files).Some? then Unit(server, db, files).value else db
  {
  }

  /** At any point of a run every file before the one being worked on is finished. */
  lemma {:induction false} EarlierFilesFinished<S>(
    server: Server<S>, tracking: map<Name, Row>, files: seq<File>, j: nat)
    requires j < |files| && DistinctNames(files)
    requires var w := NextWork(server, tracking, files); !w.Done? && w.file == files[j]
    ensures forall k :: 0 <= k < j ==>
      files[k].name in tracking && tracking[files[k].name].checksum == files[k].source
      && Finished(server, tracking[files[k].name], files[k])
    decreases |files|
  {
    if j > 0 {
      assert files[0].name != files[j].name;
      assert files[1..][j - 1] == files[j];
      EarlierFilesFinished(server, tracking, files[1..], j - 1);
      forall k | 0 < k < j
        ensures files[k] == files[1..][k - 1]
      {
      }
    }
  }

  // ---- The migrator -----------------------------------------------------------

  /** `n` units in a row succeed. */
  predicate Survives<S>(server: Server<S>, db: Db<S>, files: seq<File>, n: nat)
    decreases n
  {
    n > 0 ==> var next := Unit(server, db, files); next.Some? && Survives(server, next.value, files, n - 1)
  }

  lemma {:induction false} OneUnitMore<S>(server: Server<S>, db: Db<S>, files: seq<File>, n: nat)
    requires Survives(server, db, files, n)
    ensures var reached := Units(server, db, files, n);
      && (Unit(server, reached, files).Some? ==>
           Survives(server, db, files, n + 1) && Units(server, db, files, n + 1) == Unit(server, reached, files).value)
      && (Unit(server, reached, files).None? ==> forall m: nat :: m >= n ==> Units(server, db, files, m) == reached)
    decreases n
  {
    if n > 0 {
      OneUnitMore(server, Unit(server, db, files).value, files, n - 1);
      var next, reached := Unit(server, db, files).value, Units(server, db, files, n);
      if Unit(server, reached, files).None? {
        forall m: nat | m >= n
          ensures Units(server, db, files, m) == reached
        {
          var l: nat := m - 1;
          assert Units(server, next, files, l) == reached;
        }
      }
    }
  }

  lemma UnitTaken<S>(server: Server<S>, db: Db<S>, reached: Db<S>, after: Db<S>, files: seq<File>, n: nat)
    requires Survives(server, db, files, n) && reached == Units(server, db, files, n)
    requires Unit(server, reached, files) == Some(after)
    ensures Survives(server, db, files, n + 1) && Units(server, db, files, n + 1) == after
  {
    OneUnitMore(server, db, files, n);
  }

  lemma StatementUnit<S>(server: Server<S>, db: Db<S>, f: File, index: nat)
    requires f.name in db.tracking && db.tracking[f.name] == Row(f.source, index) && index < |server.split(f.source)|
    ensures NextWork(server, db.tracking, [f]) == Execute(f, index)
    ensures Unit(server, db, [f]) ==
      match server.run(db.schema, server.split(f.source)[index])
      case None => None
      case Some(t) => Some(Db(t, db.tracking[f.name := Row(f.source, index + 1)], db.log + [(f.name, index)]))
  {
  }

  lemma HeadWork<S>(server: Server<S>, tracking: map<Name, Row>, files: seq<File>)
    requires files != []
    ensures NextWork(server, tracking, files) ==
      if NextWork(server, tracking, [files[0]]).Done? then NextWork(server, tracking, files[1..])
      else NextWork(server, tracking, [files[0]])
  {
    assert [files[0]][1..] == [];
  }

  lemma HeadUnit<S>(server: Server<S>, db: Db<S>, files: seq<File>)
    requires files != [] && Unit(server, db, [files[0]]).Some?
    ensures Unit(server, db, files) == Unit(server, db, [files[0]])
  {
    HeadWork(server, db.tracking, files);
  }

  /** Finishing the first file and then the others is finishing them all. */
  lemma {:induction false} FirstThenRest<S>(server: Server<S>, db: Db<S>, files: seq<File>, n: nat, used: nat)
    requires files != [] && used <= n && Survives(server, db, [files[0]], used)
    requires NextWork(server, Units(server, db, [files[0]], used).tracking, [files[0]]) == Done
    ensures Units(server, db, files, n) == Units(server, Units(server, db, [files[0]], used), files[1..], n - used)
    decreases used
  {
    if used == 0 {
      SkipFinished(server, db, files, n);
    } else {
      HeadUnit(server, db, files);
      FirstThenRest(server, Unit(server, db, files).value, files, n - 1, used - 1);
    }
  }

  lemma {:induction false} SkipFinished<S>(server: Server<S>, db: Db<S>, files: seq<File>, n: nat)
    requires files != [] && NextWork(server, db.tracking, [files[0]]) == Done
    ensures Units(server, db, files, n) == Units(server, db, files[1..], n)
    decreases n
  {
    HeadWork(server, db.tracking, files);
    if n > 0 && Unit(server, db, files).Some? {
      WorkLeavesRow(server, db, files[1..], files[0]);
      SkipFinished(server, Unit(server, db, files).value, files, n - 1);
    }
  }

  /** Work on other files does not reopen a finished one. */
  lemma WorkLeavesRow<S>(server: Server<S>, db: Db<S>, files: seq<File>, f: File)
    requires NextWork(server, db.tracking, [f]) == Done && Unit(server, db, files).Some?
    ensures NextWork(server, Unit(server, db, files).value.tracking, [f]) == Done
  {
    assert [f][1..] == [];
  }

  class Migrator<S> {
    var schema: S
    var tracking: map<Name, Row>
    var log: seq<(Name, nat)>

    constructor (schema: S, tracking: map<Name, Row>)
      ensures View() == Db(schema, tracking, [])
    {
      this.schema, this.tracking, this.log := schema, tracking, [];
    }

    function View(): Db<S>
      reads this
    {
      Db(schema, tracking, log)
    }

    /** `_apply_one`, cut off after `units` units; also stops when a statement or the
        checksum fails. */
    method ApplyOne(server: Server<S>, file: File, units: nat) returns (used: nat, stopped: bool)
      modifies this
      ensures used <= units && Survives(server, old(View()), [file], used)
      ensures View() == Units(server, old(View()), [file], used)
      ensures stopped ==>
        used == units || (Unit(server, View(), [file]).None? && NextWork(server, tracking, [file]) != Done)
      ensures !stopped ==> NextWork(server, tracking, [file]) == Done
    {
      assert [file][1..] == [];
      if file.name in tracking {
        if tracking[file.name].checksum != file.source {
          return 0, true;
        }
        if Finished(server, tracking[file.name], file) {
          return 0, false;
        }
        used, stopped := RunStatements(server, file, units);
      } else {
        if units == 0 {
          return 0, true;
        }
        tracking := tracking[file.name := Row(file.source, 0)];
        used, stopped := RunStatements(server, file, units - 1);
        used := used + 1;
      }
    }

    /** The loop of `_apply_one`, from the recorded count. */
    method RunStatements(server: Server<S>, file: File, units: nat) returns (used: nat, stopped: bool)
      requires file.name in tracking && tracking[file.name].checksum == file.source && tracking[file.name].applied >= 0
      modifies this
      ensures used <= units && Survives(server, old(View()), [file], used)
      ensures View() == Units(server, old(View()), [file], used)
      ensures stopped ==>
        used == units || (Unit(server, View(), [file]).None? && NextWork(server, tracking, [file]) != Done)
      ensures !stopped ==> NextWork(server, tracking, [file]) == Done
    {
      used, stopped := 0, false;
      assert [file][1..] == [];
      var statements := server.split(file.source);
      var index := tracking[file.name].applied;
      while index < |statements|
        invariant file.name in tracking && tracking[file.name] == Row(file.source, index) && 0 <= index
        invariant used <= units && Survives(server, old(View()), [file], used)
        invariant View() == Units(server, old(View()), [file], used)
      {
        if used == units {
          return used, true;
        }
        ghost var reached := View();
        StatementUnit(server, reached, file, index);
        match server.run(schema, statements[index]) {
          case None => return used, true;
          case Some(t) =>
            schema, log := t, log + [(file.name, index)];
            tracking := tracking[file.name := Row(file.source, index + 1)];
        }
        UnitTaken(server, old(View()), reached, View(), [file], used);
        index, used := index + 1, used + 1;
      }
    }

    /** `apply_migrations`, cut off after `units` units. */
    method ApplyMigrations(server: Server<S>, files: seq<File>, units: nat)
      modifies this
      ensures View() == Units(server, old(View()), files, units)
    {
      var left: nat := units;
      for i := 0 to |files|
        invariant left <= units
        invariant Units(server, old(View()), files, units) == Units(server, View(), files[i..], left)
      {
        ghost var before := View();
        var used, stopped := ApplyOne(server, files[i], left);
        Tail(files, i);
        if stopped {
          StoppedHere(server, before, files[i..], used, left);
          return;
        }
        FirstThenRest(server, before, files[i..], left, used);
        left := left - used;
      }
      assert files[|files|..] == [];
      NothingLeft(server, View(), left);
    }
  }

  lemma Tail(files: seq<File>, i: nat)
    requires i < |files|
    ensures files[i..] != [] && files[i..][0] == files[i] && files[i..][1..] == files[i + 1..]
  {
  }

  lemma NothingLeft<S>(server: Server<S>, db: Db<S>, n: nat)
    ensures Units(server, db, [], n) == db
  {
  }

  /** A run that stops in its first file stops altogether. */
  lemma {:induction false} StoppedHere<S>(server: Server<S>, db: Db<S>, files: seq<File>, used: nat, n: nat)
    requires files != [] && used <= n && Survives(server, db, [files[0]], used)
    requires used == n || (Unit(server, Units(server, db, [files[0]], used), [files[0]]).None?
                           && NextWork(server, Units(server, db, [files[0]], used).tracking, [files[0]]) != Done)
    ensures Units(server, db, files, n) == Units(server, db, [files[0]], used)
    decreases used
  {
    if used > 0 {
      HeadUnit(server, db, files);
      StoppedHere(server, Unit(server, db, files).value, files, used - 1, n - 1);
    }
  }
}
