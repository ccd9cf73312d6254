/** The patients page: which patient the form edits, the loaded list and
    statistics, and the two side effects its handlers have, reloading the data
    and writing the cross-tab sync key. */
module PatientsPage {
  import opened Common
  import opened Records
  import opened JsNumber

  /** The local-storage key whose change tells other tabs to reload. */
  const SyncKey := "patient-registry-sync"

  /** The three counters shown above the list. */
  datatype Stats = Stats(total: Num, thisMonth: Num, thisWeek: Num)

  /** The counters before any statistics have been read. */
  const NoStats := Stats(Int(0), Int(0), Int(0))

  /** A row of the statistics query; its counts arrive as text. */
  datatype StatsRow = StatsRow(total: string, thisMonth: string, thisWeek: string)

  /** The counters of a statistics row, each read with `parseInt`. */
  function StatsOf(row: StatsRow): (r: Stats)
    ensures r.total == ParseInt(row.total)
    ensures r.thisMonth == ParseInt(row.thisMonth) && r.thisWeek == ParseInt(row.thisWeek)
  {
    Stats(ParseInt(row.total), ParseInt(row.thisMonth), ParseInt(row.thisWeek))
  }

  /** Counts that the database returns as decimal text come out as those
      integers. */
  lemma StatsOfCounts(total: int, thisMonth: int, thisWeek: int)
    ensures StatsOf(StatsRow(IntText(total), IntText(thisMonth), IntText(thisWeek)))
      == Stats(Int(total), Int(thisMonth), Int(thisWeek))
  {
    ParseIntText(total);
    ParseIntText(thisMonth);
    ParseIntText(thisWeek);
  }

  /** What the two queries of a load return: the list query fails, or it
      answers and the statistics query then fails or answers with rows. */
  datatype StatsOutcome = StatsFailed | StatsAnswered(rows: seq<StatsRow>)
  datatype LoadOutcome = ListFailed | Listed(patients: seq<Patient>, stats: StatsOutcome)

  /** A side effect, in the order the page performs them. */
  datatype Effect = Reloaded | SyncWritten

  /** The page's state together with the effects performed so far. `hasDb`
      and `initialized` are the database context's readiness. */
  datatype PageState = PageState(
    hasDb: bool,
    initialized: bool,
    patients: seq<Patient>,
    showForm: bool,
    editing: Option<Patient>,
    loading: bool,
    stats: Stats,
    log: seq<Effect>)
  {
    /** `loadPatients` runs its queries only with a database that is initialised. */
    predicate Ready()
    {
      hasDb && initialized
    }
  }

  /** Before the context reports a database. */
  const Initial := PageState(false, false, [], false, None, true, NoStats, [])

  /** What happens to the page. */
  datatype Event =
    | ContextChanged(hasDb: bool, initialized: bool, load: LoadOutcome)  // the effect on `loadPatients` runs
    | StorageChanged(key: Option<string>, load: LoadOutcome)             // a storage event from another tab
    | AddClicked
    | EditClicked(patient: Patient)
    | FormClosed(load: LoadOutcome)                                      // saved, cancelled or dismissed
    | DeleteRequested(id: string, deleted: bool, load: LoadOutcome)      // `deleted`: the DELETE succeeded

  /** `loadPatients`: nothing unless ready; otherwise a reload that replaces the
      list when the list query answers and the statistics only when the
      statistics query answers with at least one row. Loading ends false. */
  function Load(s: PageState, outcome: LoadOutcome): (r: PageState)
    ensures !s.Ready() ==> r == s
    ensures s.Ready() ==> r.log == s.log + [Reloaded] && !r.loading
    ensures r.hasDb == s.hasDb && r.initialized == s.initialized
    ensures r.showForm == s.showForm && r.editing == s.editing
    ensures r.patients == if s.Ready() && outcome.Listed? then outcome.patients else s.patients
    ensures r.stats ==
      if s.Ready() && outcome.Listed? && outcome.stats.StatsAnswered? && |outcome.stats.rows| > 0
      then StatsOf(outcome.stats.rows[0]) else s.stats
  {
    if !s.Ready() then s
    else
      var loaded := s.(loading := false, log := s.log + [Reloaded]);
      match outcome
      case ListFailed => loaded
      case Listed(patients, StatsFailed) => loaded.(patients := patients)
      case Listed(patients, StatsAnswered(rows)) =>
        loaded.(patients := patients, stats := if |rows| > 0 then StatsOf(rows[0]) else s.stats)
  }

  /** `notifyDataChanged`: the sync key is written. */
  function Notify(s: PageState): (r: PageState)
    ensures SyncWrites(r.log) == SyncWrites(s.log) + 1
    ensures s.log <= r.log && Reloaded !in r.log[|s.log|..]
    ensures r.(log := s.log) == s
  {
    CountAppend(s.log, [SyncWritten], SyncWritten);
    s.(log := s.log + [SyncWritten])
  }

  /** The page's reaction to one event. Effects are only appended, and a
      patient is edited only while the form is shown. */
  function Step(s: PageState, e: Event): (r: PageState)
    ensures s.log <= r.log
    ensures Consistent(s) ==> Consistent(r)
  {
    match e
    case ContextChanged(hasDb, initialized, load) => Load(s.(hasDb := hasDb, initialized := initialized), load)
    case StorageChanged(key, load) => if key == Some(SyncKey) then Load(s, load) else s
    case AddClicked => s.(showForm := true, editing := None)
    case EditClicked(p) => s.(showForm := true, editing := Some(p))
    case FormClosed(load) => Notify(Load(s.(showForm := false, editing := None), load))
    case DeleteRequested(_, deleted, load) =>
      if !s.hasDb || !deleted then s else Notify(Load(s, load))
  }

  /** The page after a sequence of events. */
  function Run(s: PageState, events: seq<Event>): PageState
    decreases |events|
  {
    if events == [] then s else Run(Step(s, events[0]), events[1..])
  }

  /** A patient is edited only while the form is shown. */
  predicate Consistent(s: PageState)
  {
    s.editing.Some? ==> s.showForm
  }

  /** The events that change data and so write the sync key. */
  predicate Mutates(e: Event)
  {
    e.FormClosed? || (e.DeleteRequested? && e.deleted)
  }

  /** Whether the page writes the sync key on this event: on every close of the
      form, and on a successful delete with a database present. */
  predicate WritesSync(s: PageState, e: Event)
  {
    e.FormClosed? || (e.DeleteRequested? && e.deleted && s.hasDb)
  }

  /** The number of times the sync key was written. */
  function SyncWrites(log: seq<Effect>): nat
  {
    Count(log, SyncWritten)
  }

  // ---------------------------------------------------------------------
  // Properties of single events.

  /** Loading never writes the sync key. */
  lemma LoadWritesNoSync(s: PageState, outcome: LoadOutcome)
    ensures SyncWrites(Load(s, outcome).log) == SyncWrites(s.log)
  {
    if s.Ready() {
      CountAppend(s.log, [Reloaded], SyncWritten);
    }
  }

  /** A storage event reloads exactly when its key is the sync key, and never writes it. */
  lemma StorageEventFilter(s: PageState, key: Option<string>, load: LoadOutcome)
    ensures key != Some(SyncKey) ==> Step(s, StorageChanged(key, load)) == s
    ensures key == Some(SyncKey) && s.Ready() ==>
      Step(s, StorageChanged(key, load)).log == s.log + [Reloaded]
    ensures SyncWrites(Step(s, StorageChanged(key, load)).log) == SyncWrites(s.log)
  {
    LoadWritesNoSync(s, load);
  }

  /** Add opens an empty form; Edit opens the form on the given patient. */
  lemma OpenForm(s: PageState, p: Patient)
    ensures var r := Step(s, AddClicked); r.showForm && r.editing == None && r.log == s.log
    ensures var r := Step(s, EditClicked(p)); r.showForm && r.editing == Some(p) && r.log == s.log
  {
  }

  /** Closing the form hides it, forgets the patient, reloads (when ready) and
      then writes the sync key. */
  lemma CloseFormEffects(s: PageState, load: LoadOutcome)
    ensures var r := Step(s, FormClosed(load));
      !r.showForm && r.editing == None
      && r.log == s.log + (if s.Ready() then [Reloaded] else []) + [SyncWritten]
  {
  }

  /** A successful delete reloads (when ready) and writes the sync key; a
      failed delete, or one without a database, changes nothing. */
  lemma DeleteEffects(s: PageState, id: string, deleted: bool, load: LoadOutcome)
    ensures !s.hasDb || !deleted ==> Step(s, DeleteRequested(id, deleted, load)) == s
    ensures s.hasDb && deleted ==>
              Step(s, DeleteRequested(id, deleted, load)).log ==
              s.log + (if s.initialized then [Reloaded] else []) + [SyncWritten]
  {
  }

  /** Each event writes the sync key at most once, and only if it changes data. */
  lemma StepSyncWrites(s: PageState, e: Event)
    ensures SyncWrites(Step(s, e).log) == SyncWrites(s.log) + (if WritesSync(s, e) then 1 else 0)
  {
    match e
    case ContextChanged(hasDb, initialized, load) =>
      LoadWritesNoSync(s.(hasDb := hasDb, initialized := initialized), load);
    case StorageChanged(key, load) =>
      StorageEventFilter(s, key, load);
    case AddClicked =>
    case EditClicked(_) =>
    case FormClosed(load) =>
      var closed := s.(showForm := false, editing := None);
      LoadWritesNoSync(closed, load);
      CountAppend(Load(closed, load).log, [SyncWritten], SyncWritten);
    case DeleteRequested(_, deleted, load) =>
      if s.hasDb && deleted {
        LoadWritesNoSync(s, load);
        CountAppend(Load(s, load).log, [SyncWritten], SyncWritten);
      }
  }

  // ---------------------------------------------------------------------
  // Properties of runs.

  /** Effects are only ever appended. */
  lemma {:induction false} RunExtendsLog(s: PageState, events: seq<Event>)
    ensures s.log <= Run(s, events).log
    decreases |events|
  {
    if events != [] {
      RunExtendsLog(Step(s, events[0]), events[1..]);
    }
  }

  /** A run with no saving, cancelling or deleting never writes the sync key,
      however many loads and storage events it holds. */
  lemma {:induction false} LoadingNeverNotifies(s: PageState, events: seq<Event>)
    requires forall i :: 0 <= i < |events| ==> !Mutates(events[i])
    ensures SyncWrites(Run(s, events).log) == SyncWrites(s.log)
    decreases |events|
  {
    if events != [] {
      StepSyncWrites(s, events[0]);
      LoadingNeverNotifies(Step(s, events[0]), events[1..]);
    }
  }

  /** Every run from a consistent page keeps it consistent. */
  lemma {:induction false} RunConsistent(s: PageState, events: seq<Event>)
    requires Consistent(s)
    ensures Consistent(Run(s, events))
    decreases |events|
  {
    if events != [] {
      RunConsistent(Step(s, events[0]), events[1..]);
    }
  }

  /** Until the context reports an initialised database, storage events load
      nothing and leave the page, its loading indicator included, as it is. */
  lemma {:induction false} NothingBeforeReady(s: PageState, events: seq<Event>)
    requires !s.Ready()
    requires forall i :: 0 <= i < |events| ==> events[i].StorageChanged?
    ensures Run(s, events) == s
    decreases |events|
  {
    if events != [] {
      NothingBeforeReady(Step(s, events[0]), events[1..]);
    }
  }

  // ---------------------------------------------------------------------
  // The page component.

  class Page {
    var hasDb: bool
    var initialized: bool
    var patients: seq<Patient>
    var showForm: bool
    var editing: Option<Patient>
    var loading: bool
    var stats: Stats
    var log: seq<Effect>

    function Snapshot(): PageState
      reads this
    {
      PageState(hasDb, initialized, patients, showForm, editing, loading, stats, log)
    }

    constructor ()
      ensures Snapshot() == Initial
    {
      hasDb, initialized := false, false;
      patients, showForm, editing := [], false, None;
      loading, stats, log := true, NoStats, [];
    }

    /** `loadPatients`. `loadingDuringCall` is the loading flag while the two
        queries are awaited: set for a reload, and as it was when nothing runs. */
    method LoadPatients(outcome: LoadOutcome) returns (loadingDuringCall: bool)
      modifies this
      ensures Snapshot() == Load(old(Snapshot()), outcome)
      ensures loadingDuringCall == (old(Snapshot()).Ready() || old(loading))
    {
      if !hasDb || !initialized {
        return loading;
      }
      log := log + [Reloaded];
      loading := true;
      loadingDuringCall := loading;
      match outcome {
        case ListFailed =>
        case Listed(rows, statsOutcome) =>
          patients := rows;
          match statsOutcome {
            case StatsFailed =>
            case StatsAnswered(statsRows) =>
              if |statsRows| > 0 {
                stats := StatsOf(statsRows[0]);
              }
          }
      }
      loading := false;
    }

    /** `notifyDataChanged`. */
    method NotifyDataChanged()
      modifies this
      ensures Snapshot() == Notify(old(Snapshot()))
    {
      log := log + [SyncWritten];
    }

    /** The database context changed; the effect on `loadPatients` runs again. */
    method ContextChanged(db: bool, ready: bool, outcome: LoadOutcome)
      modifies this
      ensures Snapshot() == Step(old(Snapshot()), Event.ContextChanged(db, ready, outcome))
    {
      hasDb, initialized := db, ready;
      var _ := LoadPatients(outcome);
    }

    /** The `storage` listener. */
    method HandleDataChange(key: Option<string>, outcome: LoadOutcome)
      modifies this
      ensures Snapshot() == Step(old(Snapshot()), StorageChanged(key, outcome))
    {
      if key == Some(SyncKey) {
        var _ := LoadPatients(outcome);
      }
    }

    /** `handleAddPatient`. */
    method HandleAddPatient()
      modifies this
      ensures Snapshot() == Step(old(Snapshot()), AddClicked)
    {
      editing := None;
      showForm := true;
    }

    /** `handleEditPatient`. */
    method HandleEditPatient(p: Patient)
      modifies this
      ensures Snapshot() == Step(old(Snapshot()), EditClicked(p))
    {
      editing := Some(p);
      showForm := true;
    }

    /** `handleFormClose`, which the form calls after saving and which its
        Cancel and close buttons call directly. */
    method HandleFormClose(outcome: LoadOutcome)
      modifies this
      ensures Snapshot() == Step(old(Snapshot()), FormClosed(outcome))
    {
      showForm := false;
      editing := None;
      var _ := LoadPatients(outcome);
      NotifyDataChanged();
    }

    /** `handleDeletePatient`: `deleted` says whether the DELETE succeeded. */
    method HandleDeletePatient(id: string, deleted: bool, outcome: LoadOutcome)
      modifies this
      ensures Snapshot() == Step(old(Snapshot()), DeleteRequested(id, deleted, outcome))
    {
      if !hasDb {
        return;
      }
      if deleted {
        var _ := LoadPatients(outcome);
        NotifyDataChanged();
      }
    }
  }
}
