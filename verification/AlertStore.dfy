/**
 The alert store: JPEG snapshots on a file system, rows in a transactional
 database, and the rename/fsync protocol that keeps the two together.

 Every system call is one step and may fail. A directory operation takes effect at
 once but survives a crash only after a successful fsync of the directory; until
 then a crash may leave an alert's names as they were after any operation since
 the last one. Renames are atomic and database commits are atomic and durable. The
 directories themselves are taken to be durable.
 */
module AlertStore {
  import opened Common

  /** An alert as its row and file names identify it; ids begin with the time stamp. */
  datatype Alert = Alert(stamp: int, serial: nat)

  /** The date directory an alert's files live in. */
  function Day(a: Alert): int { a.stamp / 86_400_000 }

  predicate Older(a: Alert, b: Alert) {
    a.stamp < b.stamp || (a.stamp == b.stamp && a.serial < b.serial)
  }

  datatype Name =
    | Temp      // <id>.tmp.jpg
    | Final     // <id>.jpg
    | Tomb      // <id>.jpg.deleting

  /**
   One alert's names: those present now, every state a crash may leave them in, whether
   the temporary file's data is on disk, and whether a file was published without its data.
   */
  datatype Files = Files(cur: set<Name>, maybe: set<set<Name>>, tempSynced: bool, torn: bool)

  const NoFiles := Files({}, {{}}, false, false)

  function Put(f: Files, cur: set<Name>): Files { f.(cur := cur, maybe := f.maybe + {cur}) }

  function Rename(f: Files, from: Name, to: Name): Files {
    Put(f, f.cur - {from} + {to}).(torn := f.torn || (from == Temp && !f.tempSynced))
  }

  function Unlink(f: Files, name: Name): Files { Put(f, f.cur - {name}) }

  // ----- tasks -----

  datatype PersistStage = Writing | Written | DataSynced | Renamed | Published | Discarding | Undoing

  datatype CleanStage = Quarantine | Quarantined | Durable | RowGone | Cleared | Restoring | Resync

  datatype Task =
    | Idle
    | Persisting(alert: Alert, pstage: PersistStage)
    | Cleaning(base: set<Alert>, keep: nat, excess: seq<Alert>, k: nat, cstage: CleanStage)
    | Reconciling(todo: set<Alert>, moved: Option<Alert>)

  /** How the last task ended. */
  datatype Outcome = Unknown | Failed | Persisted | Cleaned(base: set<Alert>, keep: nat) | Reconciled

  datatype State = State(files: map<Alert, Files>, rows: set<Alert>, removed: set<Alert>,
                         task: Task, outcome: Outcome)

  const Init := State(map[], {}, {}, Idle, Unknown)

  function Of(s: State, a: Alert): Files { if a in s.files then s.files[a] else NoFiles }

  function With(s: State, a: Alert, f: Files): State { s.(files := s.files[a := f]) }

  function SyncDay(s: State, day: int): State {
    s.(files := map a | a in s.files ::
         if Day(a) == day then s.files[a].(maybe := {s.files[a].cur}) else s.files[a])
  }

  function End(s: State, outcome: Outcome): State { s.(task := Idle, outcome := outcome) }

  // ----- the query behind the cleanup -----

  const INT_MAX := 0x7fff_ffff

  function Bounded(keep: nat): nat { if keep > INT_MAX then INT_MAX else keep }

  /** The rows beyond the newest `keep`, oldest first. */
  ghost predicate OldestExcess(rows: set<Alert>, keep: nat, excess: seq<Alert>) {
    && (forall i :: 0 <= i < |excess| ==> excess[i] in rows)
    && (forall i, j :: 0 <= i < j < |excess| ==> Older(excess[i], excess[j]))
    && (forall i, a :: 0 <= i < |excess| && a in rows && a !in excess ==> Older(excess[i], a))
    && |excess| == if |rows| > Bounded(keep) then |rows| - Bounded(keep) else 0
  }

  // ----- events -----

  datatype Event =
    | BeginPersist(alert: Alert)
    | BeginCleanup(keep: nat, excess: seq<Alert>)
    | BeginReconcile
    | Proceed(ok: bool)               // the next system call of a persist or cleanup succeeds or fails
    | ReconcileOne(pick: Alert, found: bool, ok: bool)
    | ReconcileSync(ok: bool)
    | Finish
    | Crash(left: map<Alert, set<Name>>)

  ghost predicate Enabled(s: State, e: Event) {
    match e
    case BeginPersist(_) => s.task.Idle?
    case BeginCleanup(keep, excess) => s.task.Idle? && OldestExcess(s.rows, keep, excess)
    case BeginReconcile => s.task.Idle?
    case Proceed(_) => s.task.Persisting? || (s.task.Cleaning? && s.task.k < |s.task.excess|)
    case ReconcileOne(pick, _, _) => s.task.Reconciling? && s.task.moved.None? && pick in s.task.todo
    case ReconcileSync(_) => s.task.Reconciling? && s.task.moved.Some?
    case Finish =>
      (s.task.Cleaning? && s.task.k == |s.task.excess|)
      || (s.task.Reconciling? && s.task.moved.None? && s.task.todo == {})
    case Crash(left) =>
      left.Keys == s.files.Keys && forall a :: a in left ==> left[a] in s.files[a].maybe
  }

  function PersistStep(s: State, ok: bool): State
    requires s.task.Persisting?
  {
    var a := s.task.alert;
    var f := Of(s, a);
    var at := (t: State, stage: PersistStage) => t.(task := Persisting(a, stage));
    match s.task.pstage
    case Writing =>
      var t := With(s, a, Put(f, f.cur + {Temp}).(tempSynced := false));
      at(t, if ok then Written else Discarding)
    case Written => if ok then at(With(s, a, f.(tempSynced := true)), DataSynced) else End(s, Failed)
    case DataSynced => if ok then at(With(s, a, Rename(f, Temp, Final)), Renamed) else at(s, Discarding)
    case Renamed => if ok then at(SyncDay(s, Day(a)), Published) else End(s, Failed)
    case Published =>
      if ok && a !in s.rows then End(s.(rows := s.rows + {a}), Persisted) else at(s, Undoing)
    case Discarding => End(if ok then With(s, a, Unlink(f, Temp)) else s, Failed)
    case Undoing => End(if ok then With(s, a, Unlink(f, Final)) else s, Failed)
  }

  function CleanStep(s: State, ok: bool): State
    requires s.task.Cleaning? && s.task.k < |s.task.excess|
  {
    var a := s.task.excess[s.task.k];
    var f := Of(s, a);
    var at := (t: State, stage: CleanStage) => t.(task := s.task.(cstage := stage));
    match s.task.cstage
    case Quarantine =>
      if ok && Final in f.cur then at(With(s, a, Rename(f, Final, Tomb)), Quarantined) else End(s, Failed)
    case Quarantined => if ok then at(SyncDay(s, Day(a)), Durable) else End(s, Failed)
    case Durable =>
      if ok && a in s.rows then at(s.(rows := s.rows - {a}, removed := s.removed + {a}), RowGone)
      else at(s, Restoring)
    case RowGone => if ok then at(With(s, a, Unlink(f, Tomb)), Cleared) else End(s, Failed)
    case Cleared =>
      if ok then SyncDay(s, Day(a)).(task := s.task.(k := s.task.k + 1, cstage := Quarantine))
      else End(s, Failed)
    case Restoring => at(if ok && Tomb in f.cur then With(s, a, Rename(f, Tomb, Final)) else s, Resync)
    case Resync => End(if ok then SyncDay(s, Day(a)) else s, Failed)
  }

  ghost function Step(s: State, e: Event): State
    requires Enabled(s, e)
  {
    match e
    case BeginPersist(a) => s.(task := Persisting(a, Writing), removed := s.removed - {a}, outcome := Unknown)
    case BeginCleanup(keep, excess) =>
      s.(task := Cleaning(s.rows, keep, excess, 0, Quarantine), outcome := Unknown)
    case BeginReconcile =>
      s.(task := Reconciling((set a | a in s.files && Tomb in s.files[a].cur :: a), None), outcome := Unknown)
    case Proceed(ok) => if s.task.Persisting? then PersistStep(s, ok) else CleanStep(s, ok)
    case ReconcileOne(a, found, ok) =>
      if !found || !ok then End(s, Failed) // the lookup or the file operation failed
      else
        var f := Of(s, a);
        var g := if a in s.rows then Rename(f, Tomb, Final) else Unlink(f, Tomb);
        With(s, a, g).(task := s.task.(moved := Some(a)))
    case ReconcileSync(ok) =>
      var a := s.task.moved.value;
      if ok then SyncDay(s, Day(a)).(task := Reconciling(s.task.todo - {a}, None)) else End(s, Failed)
    case Finish =>
      End(s, if s.task.Cleaning? then Cleaned(s.task.base, s.task.keep) else Reconciled)
    case Crash(left) =>
      s.(files := map a | a in s.files ::
           Files(left[a], {left[a]}, s.files[a].tempSynced, s.files[a].torn),
         task := Idle, outcome := Unknown)
  }

  // ----- what every step keeps -----

  /** The snapshot is under its final or its tombstone name, now and after a crash at this moment. */
  ghost predicate SnapshotSafe(f: Files) {
    !f.torn && forall m :: m in f.maybe ==> Final in m || Tomb in m
  }

  ghost predicate FilesOk(s: State) {
    forall a :: a in s.files ==> s.files[a].cur in s.files[a].maybe && !s.files[a].torn
  }

  ghost predicate RowsSafe(s: State) {
    forall a :: a in s.rows ==> SnapshotSafe(Of(s, a))
  }

  /** No crash can bring back the final name of a snapshot whose row the cleanup deleted. */
  ghost predicate RemovedGone(s: State) {
    forall a :: a in s.removed ==> a !in s.rows && forall m :: m in Of(s, a).maybe ==> Final !in m
  }

  ghost predicate Fixed(f: Files) { f.maybe == {f.cur} }

  ghost predicate PersistOk(s: State) {
    s.task.Persisting? ==>
      var a, stage := s.task.alert, s.task.pstage;
      var f := Of(s, a);
      && a !in s.removed
      && (a in s.rows ==> Tomb in f.cur)
      && (stage.DataSynced? ==> f.tempSynced)
      && (stage.Renamed? ==> Final in f.cur)
      && (stage.Published? ==> Final in f.cur && Fixed(f))
  }

  /** How many of the excess rows are gone. */
  function Deleted(t: Task): nat
    requires t.Cleaning?
  {
    if t.cstage.RowGone? || t.cstage.Cleared? then t.k + 1 else t.k
  }

  ghost predicate CleanOk(s: State) {
    s.task.Cleaning? ==>
      var t := s.task;
      && OldestExcess(t.base, t.keep, t.excess)
      && t.k <= |t.excess|
      && (t.cstage.RowGone? || t.cstage.Cleared? ==> t.k < |t.excess|)
      && s.rows == t.base - Prefix(t.excess, Deleted(t))
      && (t.k < |t.excess| ==>
            var a := t.excess[t.k];
            var f := Of(s, a);
            && (t.cstage.Quarantined? ==> Tomb in f.cur && Final !in f.cur)
            && (t.cstage.Durable? ==> Tomb in f.cur && Final !in f.cur && Fixed(f))
            && (t.cstage.RowGone? || t.cstage.Cleared? ==> a in s.removed))
  }

  /** The set of the first `n` excess rows. */
  function Prefix(excess: seq<Alert>, n: nat): set<Alert>
    requires n <= |excess|
  {
    set i | 0 <= i < n :: excess[i]
  }

  /** Every tombstone that a reconcile has still to deal with is on its list. */
  ghost predicate ReconcileOk(s: State) {
    s.task.Reconciling? ==>
      && (forall a :: a in s.files && Tomb in s.files[a].cur ==> a in s.task.todo)
      && (s.task.moved.Some? ==> Tomb !in Of(s, s.task.moved.value).cur)
  }

  ghost predicate OutcomeOk(s: State) {
    && (!s.task.Idle? ==> s.outcome.Unknown?)
    && (s.outcome.Reconciled? ==> NoTombs(s))
    && (s.outcome.Cleaned? ==> KeptNewest(s.outcome.base, s.outcome.keep, s.rows))
  }

  ghost predicate NoTombs(s: State) {
    forall a :: a in s.files ==> Tomb !in s.files[a].cur
  }

  /** Exactly the newest `keep` rows of `base` are left. */
  ghost predicate KeptNewest(base: set<Alert>, keep: nat, rows: set<Alert>) {
    && rows <= base
    && (var limit := if keep > 0x7fff_ffff then 0x7fff_ffff else keep;
        |rows| == if |base| > limit then limit else |base|)
    && forall a, b :: a in base && a !in rows && b in rows ==>
         a.stamp < b.stamp || (a.stamp == b.stamp && a.serial < b.serial)
  }

  ghost predicate Inv(s: State) {
    && FilesOk(s) && RowsSafe(s) && RemovedGone(s)
    && PersistOk(s) && CleanOk(s) && ReconcileOk(s) && OutcomeOk(s)
  }

  /** What a caller must respect: no persist under the id of a committed row, unless that row's snapshot is quarantined. */
  ghost predicate Admissible(s: State, e: Event) {
    e.BeginPersist? && e.alert in s.rows ==> Tomb in Of(s, e.alert).cur
  }

  // ----- effects of the two kinds of file update -----

  ghost predicate Base(s: State) { FilesOk(s) && RowsSafe(s) && RemovedGone(s) }

  lemma SyncKeepsBase(s: State, day: int)
    requires Base(s)
    ensures Base(SyncDay(s, day))
    ensures forall a :: Of(SyncDay(s, day), a).cur == Of(s, a).cur
                        && Of(SyncDay(s, day), a).tempSynced == Of(s, a).tempSynced
                        && (Day(a) == day || Fixed(Of(s, a)) ==> Fixed(Of(SyncDay(s, day), a)))
  {
    var t := SyncDay(s, day);
    forall a | a in t.rows ensures SnapshotSafe(Of(t, a)) { assert SnapshotSafe(Of(s, a)); }
  }

  lemma WithKeepsBase(s: State, a: Alert, f: Files)
    requires Base(s) && f.cur in f.maybe && !f.torn
    requires a in s.rows ==> SnapshotSafe(f)
    requires a in s.removed ==> forall m :: m in f.maybe ==> Final !in m
    ensures Base(With(s, a, f))
    ensures forall b :: Of(With(s, a, f), b) == if b == a then f else Of(s, b)
  {
    var t := With(s, a, f);
    forall b | b in t.rows ensures SnapshotSafe(Of(t, b)) { assert b != a ==> SnapshotSafe(Of(s, b)); }
  }

  lemma OfIsOk(s: State, a: Alert)
    requires FilesOk(s)
    ensures Of(s, a).cur in Of(s, a).maybe && !Of(s, a).torn
  {}

  lemma PersistKeepsInv(s: State, ok: bool)
    requires Inv(s) && s.task.Persisting?
    ensures Inv(PersistStep(s, ok))
  {
    var a := s.task.alert;
    var f := Of(s, a);
    OfIsOk(s, a);
    assert a in s.rows ==> SnapshotSafe(f);
    match s.task.pstage
    case Writing => WithKeepsBase(s, a, Put(f, f.cur + {Temp}).(tempSynced := false));
    case Written => WithKeepsBase(s, a, f.(tempSynced := true));
    case DataSynced => WithKeepsBase(s, a, Rename(f, Temp, Final));
    case Renamed => SyncKeepsBase(s, Day(a));
    case Published =>
    case Discarding => WithKeepsBase(s, a, Unlink(f, Temp));
    case Undoing => WithKeepsBase(s, a, Unlink(f, Final));
  }

  lemma CleanKeepsBase(s: State, ok: bool)
    requires Inv(s) && s.task.Cleaning? && s.task.k < |s.task.excess|
    ensures Base(CleanStep(s, ok))
  {
    var a := s.task.excess[s.task.k];
    var f := Of(s, a);
    OfIsOk(s, a);
    ExcessInRows(s);
    match s.task.cstage
    case Quarantine => if Final in f.cur { WithKeepsBase(s, a, Rename(f, Final, Tomb)); }
    case Quarantined => SyncKeepsBase(s, Day(a));
    case Durable =>
    case RowGone => WithKeepsBase(s, a, Unlink(f, Tomb));
    case Cleared => SyncKeepsBase(s, Day(a));
    case Restoring => if Tomb in f.cur { WithKeepsBase(s, a, Rename(f, Tomb, Final)); }
    case Resync => SyncKeepsBase(s, Day(a));
  }

  /** The row the cleanup is working on is committed until it deletes it, and gone afterwards. */
  lemma ExcessInRows(s: State)
    requires CleanOk(s) && s.task.Cleaning? && s.task.k < |s.task.excess|
    ensures s.task.excess[s.task.k] in s.rows <==> Deleted(s.task) == s.task.k
  {
    var t := s.task;
    assert t.excess[t.k] in t.base;
    forall i | 0 <= i < t.k ensures t.excess[i] != t.excess[t.k] { assert Older(t.excess[i], t.excess[t.k]); }
  }

  lemma CleanKeepsTask(s: State, ok: bool)
    requires Inv(s) && s.task.Cleaning? && s.task.k < |s.task.excess|
    ensures CleanOk(CleanStep(s, ok))
  {
    var t := s.task;
    var a := t.excess[t.k];
    ExcessInRows(s);
    assert Prefix(t.excess, t.k + 1) == Prefix(t.excess, t.k) + {a};
    SyncKeepsBase(s, Day(a));
  }

  lemma CleanKeepsInv(s: State, ok: bool)
    requires Inv(s) && s.task.Cleaning? && s.task.k < |s.task.excess|
    ensures Inv(CleanStep(s, ok))
  {
    CleanKeepsBase(s, ok);
    CleanKeepsTask(s, ok);
  }

  // ----- finishing -----

  lemma PrefixSize(excess: seq<Alert>, n: nat)
    requires n <= |excess| && forall i, j :: 0 <= i < j < |excess| ==> Older(excess[i], excess[j])
    ensures |Prefix(excess, n)| == n
  {
    if n == 0 {
      assert Prefix(excess, 0) == {};
    } else {
      PrefixSize(excess, n - 1);
      assert Prefix(excess, n) == Prefix(excess, n - 1) + {excess[n - 1]};
    }
  }

  lemma CleanupKeepsNewest(base: set<Alert>, keep: nat, excess: seq<Alert>)
    requires OldestExcess(base, keep, excess)
    ensures KeptNewest(base, keep, base - Prefix(excess, |excess|))
  {
    var gone := Prefix(excess, |excess|);
    PrefixSize(excess, |excess|);
    assert gone <= base;
    assert |base - gone| == |base| - |gone|;
    forall a, b | a in base && a in gone && b in base - gone ensures Older(a, b) {
      var i :| 0 <= i < |excess| && excess[i] == a;
      assert b !in excess;
    }
  }

  /** The query always has an answer. */
  lemma {:induction false} ExcessExists(rows: set<Alert>, keep: nat) returns (excess: seq<Alert>)
    ensures OldestExcess(rows, keep, excess)
    decreases |rows|
  {
    if |rows| <= Bounded(keep) {
      excess := [];
    } else {
      var first := LeastAlert(rows);
      var rest := ExcessExists(rows - {first}, keep);
      excess := [first] + rest;
      forall i, a | 0 <= i < |excess| && a in rows && a !in excess ensures Older(excess[i], a) {
        if i > 0 { assert excess[i] == rest[i - 1]; }
      }
    }
  }

  lemma {:induction false} LeastAlert(rows: set<Alert>) returns (least: Alert)
    requires rows != {}
    ensures least in rows && forall a :: a in rows && a != least ==> Older(least, a)
    decreases |rows|
  {
    var x :| x in rows;
    if rows == {x} {
      least := x;
    } else {
      assert rows - {x} != {};
      var y := LeastAlert(rows - {x});
      least := if Older(x, y) then x else y;
      forall a | a in rows && a != least ensures Older(least, a) {
        if a != x && a != y { assert a in rows - {x} && Older(y, a); }
      }
    }
  }

  lemma StepKeepsInv(s: State, e: Event)
    requires Inv(s) && Enabled(s, e) && Admissible(s, e)
    ensures Inv(Step(s, e))
  {
    match e
    case BeginPersist(_) => BeginKeepsInv(s, e);
    case BeginCleanup(_, _) => BeginKeepsInv(s, e);
    case BeginReconcile => BeginKeepsInv(s, e);
    case Proceed(ok) => if s.task.Persisting? { PersistKeepsInv(s, ok); } else { CleanKeepsInv(s, ok); }
    case ReconcileOne(a, found, ok) => ReconcileKeepsInv(s, a, found, ok);
    case ReconcileSync(ok) => ReconcileSyncKeepsInv(s, ok);
    case Finish => FinishKeepsInv(s);
    case Crash(left) => CrashKeepsInv(s, left);
  }

  lemma BeginKeepsInv(s: State, e: Event)
    requires Inv(s) && Enabled(s, e) && Admissible(s, e)
    requires e.BeginPersist? || e.BeginCleanup? || e.BeginReconcile?
    ensures Inv(Step(s, e))
  {
    if e.BeginCleanup? { assert Prefix(e.excess, 0) == {}; }
  }

  lemma FinishKeepsInv(s: State)
    requires Inv(s) && Enabled(s, Finish)
    ensures Inv(Step(s, Finish))
  {
    if s.task.Cleaning? { CleanupKeepsNewest(s.task.base, s.task.keep, s.task.excess); }
  }

  lemma ReconcileSyncKeepsInv(s: State, ok: bool)
    requires Inv(s) && Enabled(s, ReconcileSync(ok))
    ensures Inv(Step(s, ReconcileSync(ok)))
  {
    SyncKeepsBase(s, Day(s.task.moved.value));
  }

  lemma ReconcileKeepsInv(s: State, a: Alert, found: bool, ok: bool)
    requires Inv(s) && Enabled(s, ReconcileOne(a, found, ok))
    ensures Inv(Step(s, ReconcileOne(a, found, ok)))
  {
    var f := Of(s, a);
    OfIsOk(s, a);
    WithKeepsBase(s, a, if a in s.rows then Rename(f, Tomb, Final) else Unlink(f, Tomb));
  }

  lemma CrashKeepsInv(s: State, left: map<Alert, set<Name>>)
    requires Inv(s) && Enabled(s, Crash(left))
    ensures Inv(Step(s, Crash(left)))
  {
    var t := Step(s, Crash(left));
    forall a | a in t.rows ensures SnapshotSafe(Of(t, a)) { assert SnapshotSafe(Of(s, a)); }
  }

  // ----- every run -----

  ghost predicate IsRun(states: seq<State>, events: seq<Event>) {
    && |states| == |events| + 1 && states[0] == Init
    && forall i :: 0 <= i < |events| ==>
         && Enabled(states[i], events[i]) && Admissible(states[i], events[i])
         && states[i + 1] == Step(states[i], events[i])
  }

  lemma {:induction false} RunKeepsInv(states: seq<State>, events: seq<Event>)
    requires IsRun(states, events)
    ensures Inv(states[|events|])
  {
    if events != [] {
      var n := |events| - 1;
      RunKeepsInv(states[..|events|], events[..n]);
      StepKeepsInv(states[n], events[n]);
    }
  }

  /**
   At every point of every run of persists, cleanups and reconciles, with any
   system call failing and a crash at any step: a committed row has a fully
   written snapshot under its final or tombstone name, whatever a crash would leave
   of unsynced renames. After a successful reconcile it has the final name and no
   tombstone is left.
   */
  lemma RowsKeepSnapshots(states: seq<State>, events: seq<Event>)
    requires IsRun(states, events)
    ensures var s := states[|events|];
            && (forall a :: a in s.rows ==>
                  && !Of(s, a).torn
                  && (Final in Of(s, a).cur || Tomb in Of(s, a).cur)
                  && forall m :: m in Of(s, a).maybe ==> Final in m || Tomb in m)
            && (s.outcome.Reconciled? ==>
                  && (forall a :: a in s.rows ==> Final in Of(s, a).cur)
                  && (forall a :: a in s.files ==> Tomb !in s.files[a].cur))
  {
    RunKeepsInv(states, events);
    var s := states[|events|];
    forall a | a in s.rows ensures Final in Of(s, a).cur || Tomb in Of(s, a).cur {
      assert SnapshotSafe(Of(s, a));
      OfIsOk(s, a);
    }
  }

  /**
   A cleanup deletes rows oldest first, exactly a prefix of the excess at every
   point, and on success leaves exactly the newest `keep`. No crash brings back the
   final name of a snapshot whose row it deleted, and after a successful reconcile
   nothing but an unpublished temporary file can be left of it.
   */
  lemma CleanupLeavesNoOrphan(states: seq<State>, events: seq<Event>)
    requires IsRun(states, events)
    ensures var s := states[|events|];
            && (forall a :: a in s.removed ==> a !in s.rows && forall m :: m in Of(s, a).maybe ==> Final !in m)
            && (s.outcome.Reconciled? ==> forall a :: a in s.removed ==> Of(s, a).cur <= {Temp})
            && (s.task.Cleaning? ==>
                  && OldestExcess(s.task.base, s.task.keep, s.task.excess)
                  && exists n :: 0 <= n <= |s.task.excess| && s.rows == s.task.base - Prefix(s.task.excess, n))
            && (s.outcome.Cleaned? ==> KeptNewest(s.outcome.base, s.outcome.keep, s.rows))
  {
    RunKeepsInv(states, events);
    var s := states[|events|];
    forall a | a in s.removed && s.outcome.Reconciled? ensures Of(s, a).cur <= {Temp} {
      OfIsOk(s, a);
      assert Tomb !in Of(s, a).cur && Final !in Of(s, a).cur;
      forall n | n in Of(s, a).cur ensures n in {Temp} { assert n.Temp? || n.Final? || n.Tomb?; }
    }
  }

  /**
   The condition on ids is exact: under the id of a committed row whose snapshot is
   not quarantined, a persist that runs without any file error deletes that row's snapshot.
   */
  lemma ReusedIdLosesSnapshot(s: State, a: Alert) returns (t: State)
    requires Inv(s) && s.task.Idle? && a in s.rows && Tomb !in Of(s, a).cur
    ensures !Admissible(s, BeginPersist(a))
    ensures t == PersistStep(PersistStep(PersistStep(PersistStep(PersistStep(PersistStep(
                   Step(s, BeginPersist(a)), true), true), true), true), true), true)
    ensures a in t.rows && Final !in Of(t, a).cur && Tomb !in Of(t, a).cur
  {
    var s0 := Step(s, BeginPersist(a));
    var s1 := PersistStep(s0, true);
    var s2 := PersistStep(s1, true);
    var s3 := PersistStep(s2, true);
    var s4 := PersistStep(s3, true);
    assert s4.task == Persisting(a, Published) && Of(s4, a).cur == Of(s3, a).cur;
    var s5 := PersistStep(s4, true);
    t := PersistStep(s5, true);
  }

  // ----- what a task achieves -----

  /** The state after the next `n` system calls of a persist or cleanup have succeeded. */
  ghost function Calls(s: State, n: nat): State
    decreases n
  {
    if n == 0 || !Enabled(s, Proceed(true)) then s else Calls(Step(s, Proceed(true)), n - 1)
  }

  lemma {:induction false} CallsAdd(s: State, m: nat, n: nat)
    ensures Calls(s, m + n) == Calls(Calls(s, m), n)
    decreases m
  {
    if m > 0 {
      if Enabled(s, Proceed(true)) { CallsAdd(Step(s, Proceed(true)), m - 1, n); }
      else if n > 0 { assert Calls(s, n) == s; }
    }
  }

  /** No file of another alert is touched, and what is durable of it stays so. */
  ghost predicate OthersKept(s: State, t: State, a: Alert) {
    forall b :: b != a ==> Of(t, b).cur == Of(s, b).cur && (Fixed(Of(s, b)) ==> Fixed(Of(t, b)))
  }

  lemma PersistCall(s: State)
    requires s.task.Persisting?
    ensures Calls(s, 1) == PersistStep(s, true)
  {
    assert Calls(PersistStep(s, true), 0) == PersistStep(s, true);
  }

  /** Where a persist stands after `k` successful calls. */
  ghost predicate Staged(s: State, t: State, a: Alert, k: nat) {
    && t.task == Persisting(a, if k == 0 then Writing else if k == 1 then Written else if k == 2 then DataSynced
                               else if k == 3 then Renamed else Published)
    && t.rows == s.rows && !Of(t, a).torn
    && Of(t, a).cur == (if k == 0 then Of(s, a).cur else if k <= 2 then Of(s, a).cur + {Temp}
                        else Of(s, a).cur - {Temp} + {Final})
    && (k == 2 ==> Of(t, a).tempSynced)
    && (k == 4 ==> Fixed(Of(t, a)))
    && OthersKept(s, t, a)
  }

  lemma NextStage(s: State, t: State, a: Alert, k: nat)
    requires Staged(s, t, a, k) && k < 4
    ensures Staged(s, PersistStep(t, true), a, k + 1)
  {}

  lemma {:induction false} PersistStages(s: State, a: Alert, k: nat)
    requires Inv(s) && s.task.Idle? && k <= 4
    ensures Staged(s, Calls(Step(s, BeginPersist(a)), k), a, k)
  {
    var s0 := Step(s, BeginPersist(a));
    if k == 0 {
      OfIsOk(s, a);
    } else {
      PersistStages(s, a, k - 1);
      CallsAdd(s0, k - 1, 1);
      PersistCall(Calls(s0, k - 1));
      NextStage(s, Calls(s0, k - 1), a, k - 1);
    }
  }

  /**
   A persist all of whose calls succeed, under an id that has no row: exactly its row
   is added, and its snapshot stands durably under the final name.
   */
  lemma PersistSucceeds(s: State, a: Alert)
    requires Inv(s) && s.task.Idle? && a !in s.rows
    ensures var t := Calls(Step(s, BeginPersist(a)), 5);
            && t.task.Idle? && t.outcome == Persisted && t.rows == s.rows + {a}
            && Of(t, a).cur == Of(s, a).cur - {Temp} + {Final} && Fixed(Of(t, a)) && !Of(t, a).torn
            && OthersKept(s, t, a)
  {
    var s0 := Step(s, BeginPersist(a));
    PersistStages(s, a, 4);
    PersistCall(Calls(s0, 4));
    CallsAdd(s0, 4, 1);
  }

  /**
   A persist whose first failing call is number `k`, with what it does to clean up
   succeeding: no row is added, and its own names are exactly those of before, with the
   temporary one left if its data could not be synced and the final one left if the
   directory could not be.
   */
  lemma PersistFails(s: State, a: Alert, k: nat)
    requires Inv(s) && s.task.Idle? && k <= 4
    ensures Calls(Step(s, BeginPersist(a)), k).task.Persisting?
    ensures var u := Calls(PersistStep(Calls(Step(s, BeginPersist(a)), k), false), 1);
            && u.task.Idle? && u.outcome == Failed && u.rows == s.rows
            && Of(u, a).cur == (if k == 1 then Of(s, a).cur + {Temp}
                                else if k == 3 then Of(s, a).cur - {Temp} + {Final}
                                else if k == 4 then Of(s, a).cur - {Temp, Final}
                                else Of(s, a).cur - {Temp})
            && OthersKept(s, u, a)
  {
    PersistStages(s, a, k);
    FailedStage(s, Calls(Step(s, BeginPersist(a)), k), a, k);
  }

  lemma FailedStage(s: State, r: State, a: Alert, k: nat)
    requires Staged(s, r, a, k) && k <= 4
    ensures var u := Calls(PersistStep(r, false), 1);
            && u.task.Idle? && u.outcome == Failed && u.rows == s.rows
            && Of(u, a).cur == (if k == 1 then Of(s, a).cur + {Temp}
                                else if k == 3 then Of(s, a).cur - {Temp} + {Final}
                                else if k == 4 then Of(s, a).cur - {Temp, Final}
                                else Of(s, a).cur - {Temp})
            && OthersKept(s, u, a)
  {
    var t := PersistStep(r, false);
    if t.task.Persisting? { PersistCall(t); }
  }

  /**
   A persist of `a` that found the rows `before` has left them alone as long as it is at
   work, and is reported as persisted exactly if its row was not there and has been added.
   */
  ghost predicate ReportsRow(before: set<Alert>, now: State, a: Alert) {
    && (now.task.Persisting? ==> now.task.alert == a && now.rows == before && now.outcome.Unknown?)
    && (now.outcome.Persisted? <==> a !in before && now.rows == before + {a})
    && (!now.outcome.Persisted? ==> now.rows == before)
  }

  /** Over every run, from the start of a persist to its end and at every call between. */
  lemma {:induction false} PersistOutcome(states: seq<State>, events: seq<Event>, i: nat, j: nat)
    requires IsRun(states, events) && i < j <= |events| && events[i].BeginPersist?
    requires forall k :: i < k < j ==> states[k].task.Persisting? && events[k].Proceed?
    ensures ReportsRow(states[i].rows, states[j], events[i].alert)
    decreases j
  {
    NextState(states, events, j - 1);
    if j == i + 1 {
      PersistBegins(states[i], events[i].alert);
    } else {
      PersistOutcome(states, events, i, j - 1);
      ReportsOn(states[i].rows, states[j - 1], events[i].alert, events[j - 1].ok);
    }
  }

  lemma PersistBegins(s: State, a: Alert)
    requires s.task.Idle?
    ensures ReportsRow(s.rows, Step(s, BeginPersist(a)), a)
  {
    assert a in s.rows + {a};
  }

  lemma ReportsOn(before: set<Alert>, s: State, a: Alert, ok: bool)
    requires s.task.Persisting? && ReportsRow(before, s, a)
    ensures ReportsRow(before, Step(s, Proceed(ok)), a)
  {
    assert a in before + {a};
  }

  lemma NextState(states: seq<State>, events: seq<Event>, i: nat)
    requires IsRun(states, events) && i < |events|
    ensures Enabled(states[i], events[i]) && states[i + 1] == Step(states[i], events[i])
  {}

  /** Two calls put the snapshot durably under its tombstone name. */
  lemma QuarantineCalls(s: State)
    requires s.task.Cleaning? && s.task.k < |s.task.excess| && s.task.cstage.Quarantine?
    requires Final in Of(s, s.task.excess[s.task.k]).cur
    ensures var a := s.task.excess[s.task.k]; var t := Calls(s, 2);
            && t.task == s.task.(cstage := Durable) && t.rows == s.rows
            && Of(t, a).cur == Of(s, a).cur - {Final} + {Tomb} && OthersKept(s, t, a)
  {
    var s1 := CleanStep(s, true);
    var s2 := CleanStep(s1, true);
    assert Calls(s2, 0) == s2 && Calls(s1, 1) == s2;
  }

  /** Three more delete the row and the tombstone. */
  lemma DeleteCalls(s: State)
    requires s.task.Cleaning? && s.task.k < |s.task.excess| && s.task.cstage.Durable?
    requires s.task.excess[s.task.k] in s.rows
    ensures var a := s.task.excess[s.task.k]; var t := Calls(s, 3);
            && t.task == s.task.(k := s.task.k + 1, cstage := Quarantine) && t.rows == s.rows - {a}
            && Of(t, a).cur == Of(s, a).cur - {Tomb} && Fixed(Of(t, a)) && OthersKept(s, t, a)
  {
    var s1 := CleanStep(s, true);
    var s2 := CleanStep(s1, true);
    var s3 := CleanStep(s2, true);
    assert Calls(s3, 0) == s3 && Calls(s2, 1) == s3 && Calls(s1, 2) == s3;
  }

  /** Deleting one excess row and its snapshot takes five calls. */
  lemma CleanOne(s: State)
    requires s.task.Cleaning? && s.task.k < |s.task.excess| && s.task.cstage.Quarantine?
    requires s.task.excess[s.task.k] in s.rows && Final in Of(s, s.task.excess[s.task.k]).cur
    ensures var a := s.task.excess[s.task.k]; var t := Round(s);
            && t.task == s.task.(k := s.task.k + 1) && t.rows == s.rows - {a}
            && Of(t, a).cur == Of(s, a).cur - {Final, Tomb} && Fixed(Of(t, a))
            && OthersKept(s, t, a)
  {
    QuarantineCalls(s);
    DeleteCalls(Calls(s, 2));
    CallsAdd(s, 2, 3);
  }

  /** Five successful calls. */
  ghost function Round(s: State): State { Calls(s, 5) }

  /** The alerts whose snapshot stands under the final name. */
  ghost predicate Finals(s: State, excess: seq<Alert>, n: nat)
    requires n <= |excess|
  {
    forall i :: 0 <= i < n ==> Final in Of(s, excess[i]).cur
  }

  /** `t` follows on `s` after `n` undisturbed rounds of a cleanup. */
  ghost predicate RoundsDone(s: State, t: State, keep: nat, excess: seq<Alert>, n: nat)
    requires n <= |excess|
  {
    && t.task == Cleaning(s.rows, keep, excess, n, Quarantine) && t.outcome.Unknown?
    && t.rows == s.rows - Prefix(excess, n)
    && (forall a :: a in Prefix(excess, n) ==> Of(t, a).cur == Of(s, a).cur - {Final, Tomb} && Fixed(Of(t, a)))
    && (forall a :: a !in Prefix(excess, n) ==> Of(t, a).cur == Of(s, a).cur)
  }

  lemma NextRound(s: State, p: State, keep: nat, excess: seq<Alert>, n: nat)
    requires OldestExcess(s.rows, keep, excess) && n < |excess| && RoundsDone(s, p, keep, excess, n)
    requires Final in Of(s, excess[n]).cur
    ensures RoundsDone(s, Round(p), keep, excess, n + 1)
  {
    var a := excess[n];
    NotInPrefix(excess, n);
    CleanOne(p);
    CallsKeepOutcome(p, 5);
    assert Prefix(excess, n + 1) == Prefix(excess, n) + {a};
  }

  lemma NotInPrefix(excess: seq<Alert>, n: nat)
    requires n < |excess| && forall i, j :: 0 <= i < j < |excess| ==> Older(excess[i], excess[j])
    ensures excess[n] !in Prefix(excess, n)
  {
    forall i | 0 <= i < n ensures excess[i] != excess[n] { assert Older(excess[i], excess[n]); }
  }

  /** A task that goes on has no outcome yet. */
  lemma {:induction false} CallsKeepOutcome(s: State, n: nat)
    ensures !Calls(s, n).task.Idle? ==> Calls(s, n).outcome == s.outcome
    decreases n
  {
    if n > 0 && Enabled(s, Proceed(true)) { CallsKeepOutcome(Step(s, Proceed(true)), n - 1); }
  }

  ghost function Repeat(round: State -> State, s: State, n: nat): State
    decreases n
  {
    if n == 0 then s else round(Repeat(round, s, n - 1))
  }

  lemma {:induction false} RepeatRounds(s: State, s0: State, keep: nat, excess: seq<Alert>, n: nat, round: State -> State)
    requires n <= |excess| && RoundsDone(s, s0, keep, excess, 0)
    requires forall p, m :: 0 <= m < n && RoundsDone(s, p, keep, excess, m) ==> RoundsDone(s, round(p), keep, excess, m + 1)
    ensures RoundsDone(s, Repeat(round, s0, n), keep, excess, n)
  {
    if n > 0 { RepeatRounds(s, s0, keep, excess, n - 1, round); }
  }

  /** The first `n` rounds of a cleanup, when nothing fails. */
  lemma CleanupRounds(s: State, s0: State, keep: nat, excess: seq<Alert>, n: nat)
    requires OldestExcess(s.rows, keep, excess) && n <= |excess| && Finals(s, excess, n)
    requires RoundsDone(s, s0, keep, excess, 0)
    ensures RoundsDone(s, Repeat(Round, s0, n), keep, excess, n)
  {
    forall p, m | 0 <= m < n && RoundsDone(s, p, keep, excess, m) ensures RoundsDone(s, Round(p), keep, excess, m + 1) {
      NextRound(s, p, keep, excess, m);
    }
    RepeatRounds(s, s0, keep, excess, n, Round);
  }

  lemma CleanupBegins(s: State, keep: nat, excess: seq<Alert>)
    requires s.task.Idle? && OldestExcess(s.rows, keep, excess)
    ensures RoundsDone(s, Step(s, BeginCleanup(keep, excess)), keep, excess, 0)
  {
    assert Prefix(excess, 0) == {};
  }

  /**
   A cleanup all of whose calls succeed, with every excess snapshot under its final
   name: it finishes, exactly the excess rows are gone, of their snapshots neither
   name is left, durably, and no other file is touched.
   */
  lemma CleanupSucceeds(s: State, keep: nat, excess: seq<Alert>)
    requires s.task.Idle? && OldestExcess(s.rows, keep, excess) && Finals(s, excess, |excess|)
    ensures var t := Repeat(Round, Step(s, BeginCleanup(keep, excess)), |excess|);
            && Enabled(t, Finish)
            && var u := Step(t, Finish);
               && u.task.Idle? && u.outcome == Cleaned(s.rows, keep)
               && u.rows == (set a | a in s.rows && a !in excess)
               && (forall a :: a in excess ==> Of(u, a).cur == Of(s, a).cur - {Final, Tomb} && Fixed(Of(u, a)))
               && (forall a :: a !in excess ==> Of(u, a).cur == Of(s, a).cur)
  {
    var s0, n := Step(s, BeginCleanup(keep, excess)), |excess|;
    CleanupBegins(s, keep, excess);
    CleanupRounds(s, s0, keep, excess, n);
    AllRounds(s, Repeat(Round, s0, n), keep, excess);
  }

  lemma AllRounds(s: State, t: State, keep: nat, excess: seq<Alert>)
    requires RoundsDone(s, t, keep, excess, |excess|)
    ensures Enabled(t, Finish)
    ensures var u := Step(t, Finish);
            && u.task.Idle? && u.outcome == Cleaned(s.rows, keep)
            && u.rows == (set a | a in s.rows && a !in excess)
            && (forall a :: a in excess ==> Of(u, a).cur == Of(s, a).cur - {Final, Tomb} && Fixed(Of(u, a)))
            && (forall a :: a !in excess ==> Of(u, a).cur == Of(s, a).cur)
  {
    var n := |excess|;
    assert forall a :: a in excess <==> a in Prefix(excess, n);
    assert s.rows - Prefix(excess, n) == (set a | a in s.rows && a !in excess);
  }

  /** It stops at the first excess row whose snapshot is not under its final name, with exactly the rows before it gone. */
  lemma CleanupStops(s: State, keep: nat, excess: seq<Alert>, n: nat)
    requires s.task.Idle? && OldestExcess(s.rows, keep, excess) && n < |excess| && Finals(s, excess, n)
    requires Final !in Of(s, excess[n]).cur
    ensures var t := Calls(Repeat(Round, Step(s, BeginCleanup(keep, excess)), n), 1);
            t.task.Idle? && t.outcome == Failed && t.rows == s.rows - Prefix(excess, n)
  {
    var s0 := Step(s, BeginCleanup(keep, excess));
    CleanupBegins(s, keep, excess);
    CleanupRounds(s, s0, keep, excess, n);
    NotInPrefix(excess, n);
    StopsWithoutFinal(Repeat(Round, s0, n));
  }

  lemma StopsWithoutFinal(s: State)
    requires s.task.Cleaning? && s.task.k < |s.task.excess| && s.task.cstage.Quarantine?
    requires Final !in Of(s, s.task.excess[s.task.k]).cur
    ensures var t := Calls(s, 1); t.task.Idle? && t.outcome == Failed && t.rows == s.rows
  {
    assert Calls(CleanStep(s, true), 0) == CleanStep(s, true);
  }

  /** If the row cannot be deleted, the snapshot goes back to its final name, durably, and the row stays. */
  lemma CleanupRestores(s: State)
    requires s.task.Cleaning? && s.task.k < |s.task.excess| && s.task.cstage.Durable?
    requires Tomb in Of(s, s.task.excess[s.task.k]).cur
    ensures var a := s.task.excess[s.task.k];
            var t := CleanStep(s, false);
            && t.task.Cleaning? && t.task.k < |t.task.excess|
            && var u := Calls(t, 2);
               && u.task.Idle? && u.outcome == Failed && u.rows == s.rows
               && Of(u, a).cur == Of(s, a).cur - {Tomb} + {Final} && Fixed(Of(u, a)) && OthersKept(s, u, a)
  {
    var t := CleanStep(s, false);
    var u := CleanStep(t, true);
    var v := CleanStep(u, true);
    assert Calls(v, 0) == v && Calls(u, 1) == v;
  }

  // ----- reconciling -----

  /** A reconcile that comes upon the tombstones in this order, with every call succeeding. */
  ghost function Reconciles(s: State, picks: seq<Alert>): State
    requires s.task.Reconciling? && s.task.moved.None?
    requires (forall i :: 0 <= i < |picks| ==> picks[i] in s.task.todo)
    requires forall i, j :: 0 <= i < j < |picks| ==> picks[i] != picks[j]
    decreases |picks|
  {
    if picks == [] then s
    else
      var t := Step(s, ReconcileOne(picks[0], true, true));
      Reconciles(Step(t, ReconcileSync(true)), picks[1..])
  }

  /** A tombstone becomes the final name if its row exists, and disappears otherwise. */
  ghost function Resolved(s: State, a: Alert): set<Name> {
    Of(s, a).cur - {Tomb} + (if a in s.rows then {Final} else {})
  }

  /** Between `s` and `t` exactly these tombstones were resolved, durably. */
  ghost predicate AllResolved(s: State, t: State, picks: set<Alert>) {
    && t.rows == s.rows
    && (forall a :: a in picks ==> Of(t, a).cur == Resolved(s, a) && Fixed(Of(t, a)))
    && (forall a :: a !in picks ==> Of(t, a).cur == Of(s, a).cur && (Fixed(Of(s, a)) ==> Fixed(Of(t, a))))
  }

  lemma ResolvedOneMore(s: State, u: State, t: State, a: Alert, rest: set<Alert>)
    requires AllResolved(s, u, {a}) && AllResolved(u, t, rest) && a !in rest
    ensures AllResolved(s, t, {a} + rest)
  {
    forall b | b in rest ensures Of(t, b).cur == Resolved(s, b) { assert b !in {a}; }
    assert a in {a};
  }

  lemma ReconcileFirst(s: State, a: Alert)
    requires s.task.Reconciling? && s.task.moved.None? && a in s.task.todo
    ensures var u := Step(Step(s, ReconcileOne(a, true, true)), ReconcileSync(true));
            AllResolved(s, u, {a}) && u.task == Reconciling(s.task.todo - {a}, None)
  {}

  lemma {:induction false} ReconcilesAll(s: State, picks: seq<Alert>)
    requires s.task.Reconciling? && s.task.moved.None?
    requires (forall i :: 0 <= i < |picks| ==> picks[i] in s.task.todo)
    requires forall i, j :: 0 <= i < j < |picks| ==> picks[i] != picks[j]
    ensures var t := Reconciles(s, picks);
            AllResolved(s, t, Members(picks)) && t.task == Reconciling(s.task.todo - Members(picks), None)
    decreases |picks|
  {
    if picks != [] {
      var a, rest := picks[0], picks[1..];
      var u := Step(Step(s, ReconcileOne(a, true, true)), ReconcileSync(true));
      ReconcileFirst(s, a);
      ReconcilesAll(u, rest);
      assert Members(picks) == {a} + Members(rest);
      ResolvedOneMore(s, u, Reconciles(u, rest), a, Members(rest));
      assert s.task.todo - Members(picks) == s.task.todo - {a} - Members(rest);
    }
  }

  function Members(picks: seq<Alert>): set<Alert> { set a | a in picks }

  /**
   A reconcile all of whose calls succeed, in whatever order it comes upon the
   tombstones: it finishes, every tombstone whose row exists has become the final
   name, every other is gone, durably, and nothing else has changed.
   */
  lemma ReconcileSucceeds(s: State, picks: seq<Alert>)
    requires s.task.Idle? && forall a :: a in picks <==> a in s.files && Tomb in s.files[a].cur
    requires forall i, j :: 0 <= i < j < |picks| ==> picks[i] != picks[j]
    ensures (forall i :: 0 <= i < |picks| ==> picks[i] in Step(s, BeginReconcile).task.todo)
    ensures var t := Reconciles(Step(s, BeginReconcile), picks);
            && Enabled(t, Finish)
            && var u := Step(t, Finish);
               && u.task.Idle? && u.outcome == Reconciled && u.rows == s.rows
               && (forall a :: Of(u, a).cur == if Tomb in Of(s, a).cur then Resolved(s, a) else Of(s, a).cur)
               && (forall a :: a in picks ==> Fixed(Of(u, a)))
  {
    var s0 := Step(s, BeginReconcile);
    forall i | 0 <= i < |picks| ensures picks[i] in s0.task.todo { assert picks[i] in picks; }
    ReconcilesAll(s0, picks);
    assert s0.task.todo - Members(picks) == {};
    ResolvedFrom(s, s0, Reconciles(s0, picks), picks);
  }

  lemma ResolvedFrom(s: State, s0: State, t: State, picks: seq<Alert>)
    requires s0.files == s.files && s0.rows == s.rows && AllResolved(s0, t, Members(picks))
    requires forall a :: a in picks <==> a in s.files && Tomb in s.files[a].cur
    ensures forall a :: Of(t, a).cur == if Tomb in Of(s, a).cur then Resolved(s, a) else Of(s, a).cur
    ensures forall a :: a in picks ==> Fixed(Of(t, a))
  {
    forall a ensures Tomb in Of(s, a).cur <==> a in Members(picks) {}
    forall a | a in picks ensures Fixed(Of(t, a)) { assert a in Members(picks); }
  }

  // ----- what a sync makes durable, and what a crash may undo -----

  /** A sync makes exactly the files of one day durable. */
  lemma SyncIsLocal(s: State, a: Alert, b: Alert)
    requires FilesOk(s)
    ensures var t := SyncDay(s, Day(a));
            && Of(t, b).cur == Of(s, b).cur
            && (a.stamp / 86_400_000 == b.stamp / 86_400_000 ==> Fixed(Of(t, b)))
            && (a.stamp / 86_400_000 != b.stamp / 86_400_000 ==> Of(t, b) == Of(s, b))
  {}


  /** Until the directory is synced, a crash may leave a new snapshot under any of the names it went through, or none. */
  lemma UnsyncedMayBeLost(s: State, a: Alert)
    requires s.task.Idle? && Of(s, a) == NoFiles
    ensures var t := Calls(Step(s, BeginPersist(a)), 3);
            && t.task == Persisting(a, Renamed) && Of(t, a).maybe == {{}, {Temp}, {Final}}
    ensures var t := Calls(Step(s, BeginPersist(a)), 4); Of(t, a).maybe == {{Final}}
  {
    var s0 := Step(s, BeginPersist(a));
    var s1 := PersistStep(s0, true);
    var s2 := PersistStep(s1, true);
    var s3 := PersistStep(s2, true);
    var s4 := PersistStep(s3, true);
    var none: set<Name> := {};
    assert none + {Temp} == {Temp};
    assert Of(s1, a).maybe == {none, {Temp}};
    assert {Temp} - {Temp} + {Final} == {Final};
    assert Of(s3, a).maybe == {{}, {Temp}, {Final}};
    assert Calls(s4, 0) == s4 && Calls(s3, 0) == s3 && Calls(s3, 1) == s4 && Calls(s2, 1) == s3 && Calls(s2, 2) == s4;
    assert Calls(s1, 2) == s3 && Calls(s1, 3) == s4;
  }

  /** A crash leaves the rows, and of every alert's names any one of the states since the last sync. */
  lemma CrashLeaves(s: State, left: map<Alert, set<Name>>)
    requires left.Keys == s.files.Keys
    ensures Enabled(s, Crash(left)) <==> forall a :: a in left ==> left[a] in Of(s, a).maybe
    ensures Enabled(s, Crash(left)) ==>
              var t := Step(s, Crash(left));
              && t.rows == s.rows && t.task.Idle? && t.outcome.Unknown?
              && forall a :: a in left ==> Of(t, a).cur == left[a] && Fixed(Of(t, a))
  {}
}
