/** The countdown controller of the claudia timer component
    (claudia/src/timeboxTimer.jsx): a task name, a duration in minutes, a running
    flag, the seconds left, and the five most recent completed timeboxes, kept in
    browser storage under "timebox-history".

    `State`, `Event` and `Next` are the specification of one user action or one
    timer tick; the class `TimeboxTimer` holds the same fields and updates them in
    place, and each of its methods is proved to perform `Next`.

    A tick is one call of the one-second interval callback (`prev - 1`) followed by
    the effect that React runs on the state it produced: the effect stops the timer
    and records the session when the time left reaches zero. Controls that the
    component disables or does not render ignore the event. */
module ClaudiaTimer {
  import opened Wrappers
  import opened JsonRecords
  import HistoryLog

  const StorageKey: string := "timebox-history"
  const DefaultDuration: int := 45

  /** One completed session as the component stores it. */
  datatype Timebox = Timebox(id: int, task: string, duration: int, completedAt: string, timestamp: string)

  /** The clock readings taken when a session completes: `Date.now()`, the local
      date-time text of the ko-KR locale, and `toISOString()`. */
  datatype Stamp = Stamp(id: int, completedAt: string, timestamp: string)

  // ---------------------------------------------------------------------------
  // The stored form of the history: `JSON.stringify` of the array of timeboxes

  function ToRecord(t: Timebox): Record {
    [Field("id", Num(t.id)), Field("task", Text(t.task)), Field("duration", Num(t.duration)),
     Field("completedAt", Text(t.completedAt)), Field("timestamp", Text(t.timestamp))]
  }

  function FromRecord(r: Record): Option<Timebox> {
    if |r| == 5
       && r[0].key == "id" && r[0].value.Num?
       && r[1].key == "task" && r[1].value.Text?
       && r[2].key == "duration" && r[2].value.Num?
       && r[3].key == "completedAt" && r[3].value.Text?
       && r[4].key == "timestamp" && r[4].value.Text?
    then Some(Timebox(r[0].value.n, r[1].value.s, r[2].value.n, r[3].value.s, r[4].value.s))
    else None
  }

  function ToRecords(h: seq<Timebox>): (rs: seq<Record>)
    ensures |rs| == |h|
    ensures forall i :: 0 <= i < |h| ==> rs[i] == ToRecord(h[i])
  {
    if h == [] then [] else [ToRecord(h[0])] + ToRecords(h[1..])
  }

  function FromRecords(rs: seq<Record>): Option<seq<Timebox>> {
    if rs == [] then Some([])
    else
      match (FromRecord(rs[0]), FromRecords(rs[1..]))
      case (Some(t), Some(ts)) => Some([t] + ts)
      case _ => None
  }

  function EncodeHistory(h: seq<Timebox>): string {
    EncodeList(ToRecords(h))
  }

  /** `None` for stored text that is not an array of timeboxes. */
  function DecodeHistory(text: string): Option<seq<Timebox>> {
    match DecodeList(text)
    case None => None
    case Some(rs) => FromRecords(rs)
  }

  lemma {:induction false} FromToRecords(h: seq<Timebox>)
    ensures FromRecords(ToRecords(h)) == Some(h)
  {
    if h != [] {
      FromToRecords(h[1..]);
      assert ToRecords(h)[1..] == ToRecords(h[1..]);
      assert [h[0]] + h[1..] == h;
    }
  }

  /** The stored history reads back as the same timeboxes in the same order. */
  lemma DecodeEncodeHistory(h: seq<Timebox>)
    ensures DecodeHistory(EncodeHistory(h)) == Some(h)
  {
    DecodeEncodeList(ToRecords(h));
    FromToRecords(h);
  }

  // ---------------------------------------------------------------------------
  // The specification

  datatype State = State(
    task: string,
    duration: int,
    isRunning: bool,
    timeLeft: nat,
    history: seq<Timebox>,
    store: map<string, string>)

  datatype Event =
    | EditTask(text: string)
    | EditDuration(minutes: int)
    | Start
    | Tick(stamp: Stamp, saveOk: bool)   // saveOk: whether `localStorage.setItem` succeeds

  /** The state of the first render, over the browser storage as it is. */
  function Initial(store: map<string, string>): State {
    State("", DefaultDuration, false, 0, [], store)
  }

  /** The mount effect: a non-empty stored history replaces the empty one; text
      that does not parse is reported on the console and ignored. */
  function Loaded(s: State): State {
    if StorageKey in s.store && s.store[StorageKey] != "" then
      match DecodeHistory(s.store[StorageKey])
      case Some(h) => s.(history := h)
      case None => s
    else s
  }

  /** The task and duration inputs are disabled while the timer runs. */
  predicate InputsEnabled(s: State) {
    !s.isRunning
  }

  /** The start button is rendered only while stopped, and disabled without a
      task or with a duration below one minute. */
  predicate StartEnabled(s: State) {
    !s.isRunning && s.task != "" && s.duration >= 1
  }

  /** The entry recorded for the session that has just finished. */
  function Finished(s: State, stamp: Stamp): Timebox {
    Timebox(stamp.id, s.task, s.duration, stamp.completedAt, stamp.timestamp)
  }

  /** `addToHistory`: prepend, keep five, and write the whole list to storage;
      a write that throws is reported on the console and leaves storage as it was. */
  function Recorded(s: State, stamp: Stamp, saveOk: bool): State {
    var h := HistoryLog.Prepend(Finished(s, stamp), s.history);
    s.(history := h, store := if saveOk then s.store[StorageKey := EncodeHistory(h)] else s.store)
  }

  function Next(s: State, e: Event): State {
    match e
    case EditTask(text) => if InputsEnabled(s) then s.(task := text) else s
    case EditDuration(minutes) => if InputsEnabled(s) then s.(duration := minutes) else s
    case Start => if StartEnabled(s) then s.(timeLeft := s.duration * 60, isRunning := true) else s
    case Tick(stamp, saveOk) =>
      if !s.isRunning then s
      else
        var t := if s.timeLeft > 0 then s.timeLeft - 1 else 0;
        if t == 0 then Recorded(s.(timeLeft := 0, isRunning := false), stamp, saveOk)
        else s.(timeLeft := t)
  }

  function Run(s: State, evs: seq<Event>): State
    decreases |evs|
  {
    if evs == [] then s else Run(Next(s, evs[0]), evs[1..])
  }

  /** What holds between any two events: a running session has a task, a duration
      of at least a minute, and between one second and the whole duration left. */
  ghost predicate Consistent(s: State) {
    s.isRunning ==> s.task != "" && s.duration >= 1 && 0 < s.timeLeft <= s.duration * 60
  }

  predicate AllTicks(evs: seq<Event>) {
    forall i :: 0 <= i < |evs| ==> evs[i].Tick?
  }

  // ---------------------------------------------------------------------------
  // Properties

  lemma InitialConsistent(store: map<string, string>)
    ensures Consistent(Initial(store)) && Consistent(Loaded(Initial(store)))
    ensures Initial(store).duration == 45 && !Initial(store).isRunning && Initial(store).timeLeft == 0
  {
  }

  /** Start reloads the whole duration and runs the timer. */
  lemma StartLoadsDuration(s: State)
    requires StartEnabled(s)
    ensures Next(s, Start).isRunning && Next(s, Start).timeLeft == s.duration * 60
    ensures Next(s, Start).task == s.task && Next(s, Start).duration == s.duration
    ensures Next(s, Start).history == s.history && Next(s, Start).store == s.store
  {
  }

  /** Start does nothing while running, without a task, or with a duration below one. */
  lemma StartGuard(s: State)
    ensures Next(s, Start) != s <==> StartEnabled(s)
  {
    if StartEnabled(s) {
      assert Next(s, Start).isRunning != s.isRunning;
    }
  }

  /** A tick takes exactly one second off a running timer that has more than one
      second left, and does nothing at all to a stopped one. */
  lemma TickCountsDown(s: State, stamp: Stamp, saveOk: bool)
    ensures s.isRunning && s.timeLeft > 1 ==> Next(s, Tick(stamp, saveOk)) == s.(timeLeft := s.timeLeft - 1)
    ensures !s.isRunning ==> Next(s, Tick(stamp, saveOk)) == s
  {
  }

  /** The tick that reaches zero stops the timer and records exactly one entry,
      carrying the session's task and duration, in front of the previous history;
      the history keeps at most five entries; the whole list is written to storage
      when the write succeeds, and storage is untouched when it fails. */
  lemma TickCompletes(s: State, stamp: Stamp, saveOk: bool)
    requires s.isRunning && s.timeLeft == 1
    ensures var r := Next(s, Tick(stamp, saveOk));
      && !r.isRunning && r.timeLeft == 0
      && r.task == s.task && r.duration == s.duration
      && r.history == HistoryLog.Prepend(Timebox(stamp.id, s.task, s.duration, stamp.completedAt, stamp.timestamp), s.history)
      && |r.history| == HistoryLog.Min(|s.history| + 1, HistoryLog.Capacity)
      && (saveOk ==> r.store == s.store[StorageKey := EncodeHistory(r.history)])
      && (!saveOk ==> r.store == s.store)
  {
  }

  /** A failed write changes nothing in memory: the history is the same either way. */
  lemma SaveFailureKeepsHistory(s: State, stamp: Stamp)
    ensures Next(s, Tick(stamp, false)).history == Next(s, Tick(stamp, true)).history
    ensures Next(s, Tick(stamp, false)).store == s.store
  {
  }

  /** The task and duration cannot change while the timer runs. */
  lemma InputsLockedWhileRunning(s: State, e: Event)
    requires s.isRunning
    ensures Next(s, e).task == s.task && Next(s, e).duration == s.duration
  {
  }

  /** Every event keeps the state consistent. */
  lemma NextConsistent(s: State, e: Event)
    requires Consistent(s)
    ensures Consistent(Next(s, e))
  {
  }

  /** The mount effect restores a stored history that parses and keeps the empty
      history when nothing is stored or the stored text is malformed. */
  lemma LoadedHistory(store: map<string, string>)
    ensures var r := Loaded(Initial(store));
      && (StorageKey !in store || store[StorageKey] == "" ==> r.history == [])
      && (StorageKey in store && store[StorageKey] != "" ==>
            match DecodeHistory(store[StorageKey])
            case Some(h) => r.history == h
            case None => r.history == [])
      && r.store == store && r.task == "" && r.duration == DefaultDuration && !r.isRunning
  {
  }

  /** The history written at a completion is the one the next mount restores. */
  lemma SavedHistoryReloads(s: State, stamp: Stamp)
    requires s.isRunning && s.timeLeft == 1
    ensures var r := Next(s, Tick(stamp, true));
      Loaded(Initial(r.store)).history == r.history
  {
    var r := Next(s, Tick(stamp, true));
    DecodeEncodeHistory(r.history);
    assert r.store[StorageKey] == EncodeHistory(r.history);
    assert EncodeHistory(r.history) != "" by {
      assert EncodeHistory(r.history)[0] == '[';
    }
  }

  lemma {:induction false} RunAppend(s: State, evs: seq<Event>, e: Event)
    ensures Run(s, evs + [e]) == Next(Run(s, evs), e)
    decreases |evs|
  {
    if evs == [] {
      assert [] + [e] == [e];
    } else {
      assert (evs + [e])[1..] == evs[1..] + [e];
      RunAppend(Next(s, evs[0]), evs[1..], e);
    }
  }

  /** Ticks that do not reach zero only count down. */
  lemma {:induction false} TicksCountDown(s: State, evs: seq<Event>)
    requires s.isRunning && AllTicks(evs) && |evs| < s.timeLeft
    ensures Run(s, evs) == s.(timeLeft := s.timeLeft - |evs|)
    decreases |evs|
  {
    if evs != [] {
      var s' := Next(s, evs[0]);
      assert s' == s.(timeLeft := s.timeLeft - 1);
      assert AllTicks(evs[1..]) by {
        forall i | 0 <= i < |evs[1..]| ensures evs[1..][i].Tick? {
          assert evs[1..][i] == evs[i + 1];
        }
      }
      TicksCountDown(s', evs[1..]);
    }
  }

  /** A session started with a duration of `d` minutes completes at exactly the
      `d * 60`-th tick: the timer stops with nothing left and the history gains
      one entry for the session's task and duration, stamped by the last tick. */
  lemma SessionCompletes(s: State, evs: seq<Event>)
    requires StartEnabled(s) && AllTicks(evs) && |evs| == s.duration * 60
    ensures var r := Run(Next(s, Start), evs);
      var last := evs[|evs| - 1];
      && !r.isRunning && r.timeLeft == 0 && r.task == s.task && r.duration == s.duration
      && r.history == HistoryLog.Prepend(Finished(s, last.stamp), s.history)
  {
    var started := Next(s, Start);
    var n := |evs|;
    var init := evs[..n - 1];
    assert evs == init + [evs[n - 1]];
    assert AllTicks(init) by {
      forall i | 0 <= i < |init| ensures init[i].Tick? {
        assert init[i] == evs[i];
      }
    }
    TicksCountDown(started, init);
    RunAppend(started, init, evs[n - 1]);
  }

  // ---------------------------------------------------------------------------
  // The component

  class TimeboxTimer {
    var task: string
    var duration: int
    var isRunning: bool
    var timeLeft: nat
    var history: seq<Timebox>
    var store: map<string, string>

    function Snapshot(): State
      reads this
    {
      State(task, duration, isRunning, timeLeft, history, store)
    }

    ghost predicate Valid()
      reads this
    {
      Consistent(Snapshot())
    }

    /** The first render: every `useState` at its initial value. */
    constructor (storage: map<string, string>)
      ensures Snapshot() == Initial(storage) && Valid()
    {
      task := "";
      duration := DefaultDuration;
      isRunning := false;
      timeLeft := 0;
      history := [];
      store := storage;
    }

    /** The mount effect that reads the stored history. */
    method LoadHistory()
      requires Valid()
      modifies this
      ensures Valid() && Snapshot() == Loaded(old(Snapshot()))
      ensures task == old(task) && duration == old(duration) && isRunning == old(isRunning)
      ensures timeLeft == old(timeLeft) && store == old(store)
    {
      if StorageKey in store && store[StorageKey] != "" {
        var parsed := DecodeHistory(store[StorageKey]);
        if parsed.Some? {
          history := parsed.value;
        }
      }
    }

    method EditTask(text: string)
      requires Valid()
      modifies this
      ensures Valid() && Snapshot() == Next(old(Snapshot()), Event.EditTask(text))
      ensures task == if old(isRunning) then old(task) else text
      ensures duration == old(duration) && isRunning == old(isRunning) && timeLeft == old(timeLeft)
      ensures history == old(history) && store == old(store)
    {
      if !isRunning {
        task := text;
      }
    }

    method EditDuration(minutes: int)
      requires Valid()
      modifies this
      ensures Valid() && Snapshot() == Next(old(Snapshot()), Event.EditDuration(minutes))
      ensures duration == if old(isRunning) then old(duration) else minutes
      ensures task == old(task) && isRunning == old(isRunning) && timeLeft == old(timeLeft)
      ensures history == old(history) && store == old(store)
    {
      if !isRunning {
        duration := minutes;
      }
    }

    /** `handleStart`, reachable only through the enabled start button. */
    method Start()
      requires Valid()
      modifies this
      ensures Valid() && Snapshot() == Next(old(Snapshot()), Event.Start)
      ensures old(StartEnabled(Snapshot())) ==> isRunning && timeLeft == duration * 60
      ensures !old(StartEnabled(Snapshot())) ==> Snapshot() == old(Snapshot())
      ensures task == old(task) && duration == old(duration) && history == old(history) && store == old(store)
    {
      if !isRunning && task != "" && duration >= 1 {
        timeLeft := duration * 60;
        isRunning := true;
      }
    }

    /** `saveToLocalStorage`. */
    method SaveToLocalStorage(h: seq<Timebox>, saveOk: bool)
      modifies this`store
      ensures store == if saveOk then old(store)[StorageKey := EncodeHistory(h)] else old(store)
    {
      if saveOk {
        store := store[StorageKey := EncodeHistory(h)];
      }
    }

    /** `addToHistory`. */
    method AddToHistory(stamp: Stamp, saveOk: bool)
      modifies this`history, this`store
      ensures Snapshot() == Recorded(old(Snapshot()), stamp, saveOk)
    {
      var updated := HistoryLog.Prepend(Timebox(stamp.id, task, duration, stamp.completedAt, stamp.timestamp), history);
      history := updated;
      SaveToLocalStorage(updated, saveOk);
    }

    /** One interval callback, then the effect on the state it leaves. */
    method Tick(stamp: Stamp, saveOk: bool)
      requires Valid()
      modifies this
      ensures Valid() && Snapshot() == Next(old(Snapshot()), Event.Tick(stamp, saveOk))
      ensures task == old(task) && duration == old(duration)
      ensures !old(isRunning) ==> Snapshot() == old(Snapshot())
      ensures old(isRunning) && old(timeLeft) > 1 ==>
        isRunning && timeLeft == old(timeLeft) - 1 && history == old(history) && store == old(store)
      ensures old(isRunning) && old(timeLeft) == 1 ==>
        && !isRunning && timeLeft == 0
        && history == HistoryLog.Prepend(Timebox(stamp.id, task, duration, stamp.completedAt, stamp.timestamp), old(history))
        && store == if saveOk then old(store)[StorageKey := EncodeHistory(history)] else old(store)
    {
      if isRunning && timeLeft > 0 {
        timeLeft := timeLeft - 1;
      }
      if timeLeft == 0 && isRunning {
        isRunning := false;
        AddToHistory(stamp, saveOk);
      }
    }
  }
}
