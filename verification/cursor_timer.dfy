/** The countdown controller of the cursor timer component
    (cursor/src/timeboxTimer.jsx): the same task, duration, running flag, seconds
    left and five-entry history as the claudia component, kept in browser storage
    under "timeboxHistory", but with no error handling around storage: stored text
    that does not parse makes the mount effect throw.

    `State`, `Event` and `Next` specify one user action or one timer tick; the class
    `TimeboxTimer` updates the same fields in place and is proved to perform `Next`.
    A tick is one interval callback followed by the effect React runs on its result.

    The cursor component repeats the claudia component's controller with its own
    record type and its own storage key. This module therefore repeats the
    corresponding definitions and trace lemmas of `ClaudiaTimer` (`ToRecords`,
    `FromToRecords`, `RunAppend`, `TicksCountDown`, `SessionCompletes`) over its
    own `State`, so that each module stands for one source file. */
module CursorTimer {
  import opened Wrappers
  import opened JsonRecords
  import HistoryLog

  const StorageKey: string := "timeboxHistory"
  const DefaultDuration: int := 45

  /** One completed session as the component stores it. */
  datatype Timebox = Timebox(id: int, task: string, duration: int, completedAt: string)

  /** The clock readings taken at completion: `Date.now()` and `toISOString()`. */
  datatype Stamp = Stamp(id: int, completedAt: string)

  /** The exception `JSON.parse` throws out of the mount effect. */
  datatype LoadError = MalformedHistory(text: string)

  // ---------------------------------------------------------------------------
  // The stored form of the history

  function ToRecord(t: Timebox): Record {
    [Field("id", Num(t.id)), Field("task", Text(t.task)), Field("duration", Num(t.duration)),
     Field("completedAt", Text(t.completedAt))]
  }

  function FromRecord(r: Record): Option<Timebox> {
    if |r| == 4
       && r[0].key == "id" && r[0].value.Num?
       && r[1].key == "task" && r[1].value.Text?
       && r[2].key == "duration" && r[2].value.Num?
       && r[3].key == "completedAt" && r[3].value.Text?
    then Some(Timebox(r[0].value.n, r[1].value.s, r[2].value.n, r[3].value.s))
    else None
  }

  function ToRecords(h: seq<Timebox>): (rs: seq<Record>)
    ensures |rs| == |h|
    ensures forall i :: 0 <= i < |h| ==> rs[i] == ToRecord(h[i])
  {
    if h == [] then [] else [ToRecord(h[0])] + ToRecords(h[1..])
  }

  function FromRecords(rs: seq<Record>): Option<seq<Timebox>> {
    if rs == [] then Some([])
    else
      match (FromRecord(rs[0]), FromRecords(rs[1..]))
      case (Some(t), Some(ts)) => Some([t] + ts)
      case _ => None
  }

  function EncodeHistory(h: seq<Timebox>): string {
    EncodeList(ToRecords(h))
  }

  function DecodeHistory(text: string): Option<seq<Timebox>> {
    match DecodeList(text)
    case None => None
    case Some(rs) => FromRecords(rs)
  }

  lemma {:induction false} FromToRecords(h: seq<Timebox>)
    ensures FromRecords(ToRecords(h)) == Some(h)
  {
    if h != [] {
      FromToRecords(h[1..]);
      assert ToRecords(h)[1..] == ToRecords(h[1..]);
      assert [h[0]] + h[1..] == h;
    }
  }

  /** The stored history reads back as the same timeboxes in the same order. */
  lemma DecodeEncodeHistory(h: seq<Timebox>)
    ensures DecodeHistory(EncodeHistory(h)) == Some(h)
  {
    DecodeEncodeList(ToRecords(h));
    FromToRecords(h);
  }

  // ---------------------------------------------------------------------------
  // The specification

  datatype State = State(
    task: string,
    duration: int,
    isRunning: bool,
    timeLeft: nat,
    history: seq<Timebox>,
    store: map<string, string>)

  datatype Event =
    | EditTask(text: string)
    | EditDuration(minutes: int)
    | Start
    | Tick(stamp: Stamp)

  function Initial(store: map<string, string>): State {
    State("", DefaultDuration, false, 0, [], store)
  }

  /** The mount effect: a non-empty stored text replaces the history with what it
      parses to; text that does not parse throws. */
  function Loaded(s: State): Result<State, LoadError> {
    if StorageKey in s.store && s.store[StorageKey] != "" then
      match DecodeHistory(s.store[StorageKey])
      case Some(h) => Success(s.(history := h))
      case None => Failure(MalformedHistory(s.store[StorageKey]))
    else Success(s)
  }

  predicate InputsEnabled(s: State) {
    !s.isRunning
  }

  predicate StartEnabled(s: State) {
    !s.isRunning && s.task != "" && s.duration >= 1
  }

  function Finished(s: State, stamp: Stamp): Timebox {
    Timebox(stamp.id, s.task, s.duration, stamp.completedAt)
  }

  /** `saveCompletedTimebox`: prepend, keep five, write the whole list. */
  function Recorded(s: State, stamp: Stamp): State {
    var h := HistoryLog.Prepend(Finished(s, stamp), s.history);
    s.(history := h, store := s.store[StorageKey := EncodeHistory(h)])
  }

  function Next(s: State, e: Event): State {
    match e
    case EditTask(text) => if InputsEnabled(s) then s.(task := text) else s
    case EditDuration(minutes) => if InputsEnabled(s) then s.(duration := minutes) else s
    case Start => if StartEnabled(s) then s.(timeLeft := s.duration * 60, isRunning := true) else s
    case Tick(stamp) =>
      if !s.isRunning then s
      else
        var t := if s.timeLeft > 0 then s.timeLeft - 1 else 0;
        if t == 0 then Recorded(s.(timeLeft := 0, isRunning := false), stamp)
        else s.(timeLeft := t)
  }

  function Run(s: State, evs: seq<Event>): State
    decreases |evs|
  {
    if evs == [] then s else Run(Next(s, evs[0]), evs[1..])
  }

  ghost predicate Consistent(s: State) {
    s.isRunning ==> s.task != "" && s.duration >= 1 && 0 < s.timeLeft <= s.duration * 60
  }

  /** Storage mirrors the history: a non-empty stored text is exactly that list,
      and without one the history is empty. */
  ghost predicate Mirrored(s: State) {
    if StorageKey in s.store && s.store[StorageKey] != "" then DecodeHistory(s.store[StorageKey]) == Some(s.history)
    else s.history == []
  }

  predicate AllTicks(evs: seq<Event>) {
    forall i :: 0 <= i < |evs| ==> evs[i].Tick?
  }

  // ---------------------------------------------------------------------------
  // Properties

  lemma StartLoadsDuration(s: State)
    requires StartEnabled(s)
    ensures Next(s, Start).isRunning && Next(s, Start).timeLeft == s.duration * 60
    ensures Next(s, Start).task == s.task && Next(s, Start).duration == s.duration
    ensures Next(s, Start).history == s.history && Next(s, Start).store == s.store
  {
  }

  lemma StartGuard(s: State)
    ensures Next(s, Start) != s <==> StartEnabled(s)
  {
    if StartEnabled(s) {
      assert Next(s, Start).isRunning != s.isRunning;
    }
  }

  lemma TickCountsDown(s: State, stamp: Stamp)
    ensures s.isRunning && s.timeLeft > 1 ==> Next(s, Tick(stamp)) == s.(timeLeft := s.timeLeft - 1)
    ensures !s.isRunning ==> Next(s, Tick(stamp)) == s
  {
  }

  /** The tick that reaches zero stops the timer and records exactly one entry for
      the finished task and duration, newest first, at most five in all, and writes
      the whole list to storage. */
  lemma TickCompletes(s: State, stamp: Stamp)
    requires s.isRunning && s.timeLeft == 1
    ensures var r := Next(s, Tick(stamp));
      && !r.isRunning && r.timeLeft == 0
      && r.task == s.task && r.duration == s.duration
      && r.history == HistoryLog.Prepend(Timebox(stamp.id, s.task, s.duration, stamp.completedAt), s.history)
      && |r.history| == HistoryLog.Min(|s.history| + 1, HistoryLog.Capacity)
      && r.store == s.store[StorageKey := EncodeHistory(r.history)]
  {
  }

  lemma InputsLockedWhileRunning(s: State, e: Event)
    requires s.isRunning
    ensures Next(s, e).task == s.task && Next(s, e).duration == s.duration
  {
  }

  lemma NextConsistent(s: State, e: Event)
    requires Consistent(s)
    ensures Consistent(Next(s, e))
  {
  }

  /** The mount effect restores a stored history that parses, keeps the empty
      history when nothing (or the empty text) is stored, and throws otherwise;
      a successful load leaves storage mirroring the history. */
  lemma LoadedHistory(store: map<string, string>)
    ensures var r := Loaded(Initial(store));
      && (StorageKey !in store || store[StorageKey] == "" ==> r == Success(Initial(store)))
      && (StorageKey in store && store[StorageKey] != "" ==>
            match DecodeHistory(store[StorageKey])
            case Some(h) => r == Success(Initial(store).(history := h))
            case None => r == Failure(MalformedHistory(store[StorageKey])))
      && (r.Success? ==> Mirrored(r.value))
  {
  }

  /** Every event keeps storage mirroring the history: after each completion the
      stored text is the full truncated list. */
  lemma RecordedMirrored(s: State, stamp: Stamp)
    ensures Mirrored(Recorded(s, stamp))
  {
    var r := Recorded(s, stamp);
    DecodeEncodeHistory(r.history);
    assert r.store[StorageKey] == EncodeHistory(r.history);
    assert EncodeHistory(r.history)[0] == '[';
  }

  lemma NextMirrored(s: State, e: Event)
    requires Mirrored(s)
    ensures Mirrored(Next(s, e))
  {
    if e.Tick? && s.isRunning && s.timeLeft <= 1 {
      RecordedMirrored(s.(timeLeft := 0, isRunning := false), e.stamp);
    }
  }

  /** Whatever happened since the mount, the next mount restores the same ordered
      history. */
  lemma {:induction false} RunReloads(s: State, evs: seq<Event>)
    requires Mirrored(s)
    ensures var r := Run(s, evs);
      Loaded(Initial(r.store)) == Success(Initial(r.store).(history := r.history))
    decreases |evs|
  {
    if evs != [] {
      NextMirrored(s, evs[0]);
      RunReloads(Next(s, evs[0]), evs[1..]);
    }
  }

  lemma {:induction false} RunAppend(s: State, evs: seq<Event>, e: Event)
    ensures Run(s, evs + [e]) == Next(Run(s, evs), e)
    decreases |evs|
  {
    if evs == [] {
      assert [] + [e] == [e];
    } else {
      assert (evs + [e])[1..] == evs[1..] + [e];
      RunAppend(Next(s, evs[0]), evs[1..], e);
    }
  }

  lemma {:induction false} TicksCountDown(s: State, evs: seq<Event>)
    requires s.isRunning && AllTicks(evs) && |evs| < s.timeLeft
    ensures Run(s, evs) == s.(timeLeft := s.timeLeft - |evs|)
    decreases |evs|
  {
    if evs != [] {
      var s' := Next(s, evs[0]);
      assert s' == s.(timeLeft := s.timeLeft - 1);
      assert AllTicks(evs[1..]) by {
        forall i | 0 <= i < |evs[1..]| ensures evs[1..][i].Tick? {
          assert evs[1..][i] == evs[i + 1];
        }
      }
      TicksCountDown(s', evs[1..]);
    }
  }

  /** A session of `d` minutes completes at exactly the `d * 60`-th tick with one
      new entry for its task and duration. */
  lemma SessionCompletes(s: State, evs: seq<Event>)
    requires StartEnabled(s) && AllTicks(evs) && |evs| == s.duration * 60
    ensures var r := Run(Next(s, Start), evs);
      var last := evs[|evs| - 1];
      && !r.isRunning && r.timeLeft == 0 && r.task == s.task && r.duration == s.duration
      && r.history == HistoryLog.Prepend(Finished(s, last.stamp), s.history)
  {
    var started := Next(s, Start);
    var n := |evs|;
    var init := evs[..n - 1];
    assert evs == init + [evs[n - 1]];
    assert AllTicks(init) by {
      forall i | 0 <= i < |init| ensures init[i].Tick? {
        assert init[i] == evs[i];
      }
    }
    TicksCountDown(started, init);
    RunAppend(started, init, evs[n - 1]);
  }

  // ---------------------------------------------------------------------------
  // The component

  class TimeboxTimer {
    var task: string
    var duration: int
    var isRunning: bool
    var timeLeft: nat
    var history: seq<Timebox>
    var store: map<string, string>

    function Snapshot(): State
      reads this
    {
      State(task, duration, isRunning, timeLeft, history, store)
    }

    ghost predicate Valid()
      reads this
    {
      Consistent(Snapshot())
    }

    constructor (storage: map<string, string>)
      ensures Snapshot() == Initial(storage) && Valid()
    {
      task := "";
      duration := DefaultDuration;
      isRunning := false;
      timeLeft := 0;
      history := [];
      store := storage;
    }

    /** The mount effect; `thrown` reports the exception `JSON.parse` raises, after
        which the state is as it was. */
    method LoadHistory() returns (thrown: Option<LoadError>)
      requires Valid()
      modifies this
      ensures Valid()
      ensures Loaded(old(Snapshot())) == match thrown
        case None => Success(Snapshot())
        case Some(err) => Failure(err)
      ensures thrown.Some? ==> Snapshot() == old(Snapshot())
      ensures thrown.None? && old(history) == [] ==> Mirrored(Snapshot())
      ensures task == old(task) && duration == old(duration) && isRunning == old(isRunning)
      ensures timeLeft == old(timeLeft) && store == old(store)
    {
      thrown := None;
      if StorageKey in store && store[StorageKey] != "" {
        var parsed := DecodeHistory(store[StorageKey]);
        if parsed.Some? {
          history := parsed.value;
        } else {
          thrown := Some(MalformedHistory(store[StorageKey]));
        }
      }
    }

    method EditTask(text: string)
      requires Valid()
      modifies this
      ensures Valid() && Snapshot() == Next(old(Snapshot()), Event.EditTask(text))
      ensures task == if old(isRunning) then old(task) else text
      ensures duration == old(duration) && isRunning == old(isRunning) && timeLeft == old(timeLeft)
      ensures history == old(history) && store == old(store)
    {
      if !isRunning {
        task := text;
      }
    }

    method EditDuration(minutes: int)
      requires Valid()
      modifies this
      ensures Valid() && Snapshot() == Next(old(Snapshot()), Event.EditDuration(minutes))
      ensures duration == if old(isRunning) then old(duration) else minutes
      ensures task == old(task) && isRunning == old(isRunning) && timeLeft == old(timeLeft)
      ensures history == old(history) && store == old(store)
    {
      if !isRunning {
        duration := minutes;
      }
    }

    /** `handleStart`, reachable only through the enabled start button. */
    method Start()
      requires Valid()
      modifies this
      ensures Valid() && Snapshot() == Next(old(Snapshot()), Event.Start)
      ensures old(StartEnabled(Snapshot())) ==> isRunning && timeLeft == duration * 60
      ensures !old(StartEnabled(Snapshot())) ==> Snapshot() == old(Snapshot())
      ensures task == old(task) && duration == old(duration) && history == old(history) && store == old(store)
    {
      if !isRunning && task != "" && duration >= 1 {
        timeLeft := duration * 60;
        isRunning := true;
      }
    }

    /** `saveCompletedTimebox`. */
    method SaveCompletedTimebox(stamp: Stamp)
      modifies this`history, this`store
      ensures Snapshot() == Recorded(old(Snapshot()), stamp)
    {
      var updated := HistoryLog.Prepend(Timebox(stamp.id, task, duration, stamp.completedAt), history);
      history := updated;
      store := store[StorageKey := EncodeHistory(updated)];
    }

    /** One interval callback, then the effect on the state it leaves. */
    method Tick(stamp: Stamp)
      requires Valid()
      modifies this
      ensures Valid() && Snapshot() == Next(old(Snapshot()), Event.Tick(stamp))
      ensures old(Mirrored(Snapshot())) ==> Mirrored(Snapshot())
      ensures task == old(task) && duration == old(duration)
      ensures !old(isRunning) ==> Snapshot() == old(Snapshot())
      ensures old(isRunning) && old(timeLeft) > 1 ==>
        isRunning && timeLeft == old(timeLeft) - 1 && history == old(history) && store == old(store)
      ensures old(isRunning) && old(timeLeft) == 1 ==>
        && !isRunning && timeLeft == 0
        && history == HistoryLog.Prepend(Timebox(stamp.id, task, duration, stamp.completedAt), old(history))
        && store == old(store)[StorageKey := EncodeHistory(history)]
    {
      ghost var before := Snapshot();
      if isRunning && timeLeft > 0 {
        timeLeft := timeLeft - 1;
      }
      if timeLeft == 0 && isRunning {
        isRunning := false;
        SaveCompletedTimebox(stamp);
      }
      if Mirrored(before) {
        NextMirrored(before, Event.Tick(stamp));
      }
    }
  }
}
