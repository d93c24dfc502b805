/** The countdown controller of the codex timer component
    (codex/src/timeboxTimer.jsx): a task name, a duration in minutes, a running
    flag and the seconds left, with pause/resume and reset and no history.

    `State`, `Event` and `Next` specify one user action or one timer tick; the class
    `TimeboxTimer` updates the same fields in place and is proved to perform `Next`.
    A tick is one interval callback followed by the effect React runs on its result,
    which stops the timer when the time left is zero. Controls that the component
    disables or does not render ignore the event. */
module CodexTimer {

  const DefaultDuration: int := 45

  datatype State = State(task: string, duration: int, isRunning: bool, timeLeft: nat)

  datatype Event =
    | EditTask(text: string)
    | EditDuration(minutes: int)
    | Start
    | Pause
    | Reset
    | Tick

  /** Every `useState` at its initial value; also what `handleReset` restores. */
  function Initial(): State {
    State("", DefaultDuration, false, 0)
  }

  /** The task and duration inputs are disabled while the timer runs. */
  predicate InputsEnabled(s: State) {
    !s.isRunning
  }

  /** The start button is rendered only while stopped, and disabled without a task
      or with a duration below one minute; it starts and resumes alike. */
  predicate StartEnabled(s: State) {
    !s.isRunning && s.task != "" && s.duration >= 1
  }

  /** The pause and reset buttons are rendered only while the timer runs. */
  predicate ControlsOffered(s: State) {
    s.isRunning
  }

  function Next(s: State, e: Event): State {
    match e
    case EditTask(text) => if InputsEnabled(s) then s.(task := text) else s
    case EditDuration(minutes) => if InputsEnabled(s) then s.(duration := minutes) else s
    case Start =>
      if StartEnabled(s) then
        s.(timeLeft := if s.timeLeft == 0 then s.duration * 60 else s.timeLeft, isRunning := true)
      else s
    case Pause => if ControlsOffered(s) then s.(isRunning := false) else s
    case Reset => if ControlsOffered(s) then Initial() else s
    case Tick =>
      if !s.isRunning then s
      else
        var t := if s.timeLeft > 0 then s.timeLeft - 1 else 0;
        s.(timeLeft := t, isRunning := t != 0)
  }

  function Run(s: State, evs: seq<Event>): State
    decreases |evs|
  {
    if evs == [] then s else Run(Next(s, evs[0]), evs[1..])
  }

  /** A running timer has a task, a duration of at least a minute and time left. */
  ghost predicate Consistent(s: State) {
    s.isRunning ==> s.task != "" && s.duration >= 1 && s.timeLeft > 0
  }

  /** The ticks of `evs` that the running interval turns into a decrement. */
  function RunningTicks(s: State, evs: seq<Event>): nat
    decreases |evs|
  {
    if evs == [] then 0
    else (if evs[0].Tick? && s.isRunning && s.timeLeft > 0 then 1 else 0) + RunningTicks(Next(s, evs[0]), evs[1..])
  }

  /** Every event of `evs` arrives while the session still has time left, and none
      of them is a reset: the events of one session, with any pauses, resumes,
      edits and idle ticks in between. */
  ghost predicate WithinSession(s: State, evs: seq<Event>)
    decreases |evs|
  {
    evs == [] || (s.timeLeft > 0 && !evs[0].Reset? && WithinSession(Next(s, evs[0]), evs[1..]))
  }

  // ---------------------------------------------------------------------------
  // Properties

  /** Start on a finished or fresh timer loads the whole duration; start on a
      paused timer resumes with the time that was left. Either way the timer runs. */
  lemma StartOrResume(s: State)
    requires StartEnabled(s)
    ensures Next(s, Start).isRunning
    ensures s.timeLeft == 0 ==> Next(s, Start).timeLeft == s.duration * 60
    ensures s.timeLeft > 0 ==> Next(s, Start).timeLeft == s.timeLeft
    ensures Next(s, Start).task == s.task && Next(s, Start).duration == s.duration
  {
  }

  lemma StartGuard(s: State)
    ensures Next(s, Start) != s <==> StartEnabled(s)
  {
    if StartEnabled(s) {
      assert Next(s, Start).isRunning != s.isRunning;
    }
  }

  /** Pause stops the timer and changes nothing else. */
  lemma PauseFreezes(s: State)
    ensures Next(s, Pause) == s.(isRunning := false)
  {
  }

  /** Reset, offered while running, restores the defaults. */
  lemma ResetRestoresDefaults(s: State)
    requires ControlsOffered(s)
    ensures Next(s, Reset) == State("", 45, false, 0)
  {
  }

  /** Pause and reset are ignored when their buttons are not shown. */
  lemma ControlsIgnoredWhenStopped(s: State)
    requires !s.isRunning
    ensures Next(s, Pause) == s && Next(s, Reset) == s
  {
  }

  /** A tick takes exactly one second off a running timer, stops it when that
      leaves nothing, and does nothing to a stopped one. */
  lemma TickCountsDown(s: State)
    ensures s.isRunning && s.timeLeft > 1 ==> Next(s, Tick) == s.(timeLeft := s.timeLeft - 1)
    ensures s.isRunning && s.timeLeft == 1 ==> Next(s, Tick) == s.(timeLeft := 0, isRunning := false)
    ensures !s.isRunning ==> Next(s, Tick) == s
  {
  }

  lemma InputsLockedWhileRunning(s: State, e: Event)
    requires s.isRunning && !e.Reset?
    ensures Next(s, e).task == s.task && Next(s, e).duration == s.duration
  {
  }

  lemma NextConsistent(s: State, e: Event)
    requires Consistent(s)
    ensures Consistent(Next(s, e))
  {
  }

  /** While paused, editing the duration does not touch the time left: resuming
      continues from it, and still needs a task and a duration of at least one. */
  lemma PausedEditThenResume(s: State, minutes: int)
    requires !s.isRunning && s.timeLeft > 0
    ensures var r := Next(Next(s, EditDuration(minutes)), Start);
      && r.timeLeft == s.timeLeft
      && (r.isRunning <==> s.task != "" && minutes >= 1)
  {
  }

  /** Within a session, the time left falls by exactly the number of ticks that
      arrive while the timer runs; pauses, resumes, edits and ticks while paused
      take nothing off. */
  lemma {:induction false} RunningTicksSpend(s: State, evs: seq<Event>)
    requires WithinSession(s, evs)
    ensures Run(s, evs).timeLeft + RunningTicks(s, evs) == s.timeLeft
    decreases |evs|
  {
    if evs != [] {
      var s' := Next(s, evs[0]);
      assert s'.timeLeft + (if evs[0].Tick? && s.isRunning && s.timeLeft > 0 then 1 else 0) == s.timeLeft;
      RunningTicksSpend(s', evs[1..]);
    }
  }

  /** A session started from zero with a duration of `d` minutes runs for exactly
      `d * 60` ticks before it ends, however it is paused and resumed, and it is
      stopped when it ends. */
  lemma SessionLength(s: State, evs: seq<Event>)
    requires Consistent(s) && StartEnabled(s) && s.timeLeft == 0
    requires WithinSession(Next(s, Start), evs) && Run(Next(s, Start), evs).timeLeft == 0
    ensures RunningTicks(Next(s, Start), evs) == s.duration * 60
    ensures !Run(Next(s, Start), evs).isRunning
  {
    RunningTicksSpend(Next(s, Start), evs);
    RunConsistent(Next(s, Start), evs);
  }

  lemma {:induction false} RunConsistent(s: State, evs: seq<Event>)
    requires Consistent(s)
    ensures Consistent(Run(s, evs))
    decreases |evs|
  {
    if evs != [] {
      NextConsistent(s, evs[0]);
      RunConsistent(Next(s, evs[0]), evs[1..]);
    }
  }

  // ---------------------------------------------------------------------------
  // The component

  class TimeboxTimer {
    var task: string
    var duration: int
    var isRunning: bool
    var timeLeft: nat

    function Snapshot(): State
      reads this
    {
      State(task, duration, isRunning, timeLeft)
    }

    ghost predicate Valid()
      reads this
    {
      Consistent(Snapshot())
    }

    constructor ()
      ensures Snapshot() == Initial() && Valid()
    {
      task := "";
      duration := DefaultDuration;
      isRunning := false;
      timeLeft := 0;
    }

    method EditTask(text: string)
      requires Valid()
      modifies this
      ensures Valid() && Snapshot() == Next(old(Snapshot()), Event.EditTask(text))
      ensures task == if old(isRunning) then old(task) else text
      ensures duration == old(duration) && isRunning == old(isRunning) && timeLeft == old(timeLeft)
    {
      if !isRunning {
        task := text;
      }
    }

    method EditDuration(minutes: int)
      requires Valid()
      modifies this
      ensures Valid() && Snapshot() == Next(old(Snapshot()), Event.EditDuration(minutes))
      ensures duration == if old(isRunning) then old(duration) else minutes
      ensures task == old(task) && isRunning == old(isRunning) && timeLeft == old(timeLeft)
    {
      if !isRunning {
        duration := minutes;
      }
    }

    /** `handleStart`, reachable only through the enabled start button. */
    method Start()
      requires Valid()
      modifies this
      ensures Valid() && Snapshot() == Next(old(Snapshot()), Event.Start)
      ensures old(StartEnabled(Snapshot())) ==>
        isRunning && timeLeft == (if old(timeLeft) == 0 then duration * 60 else old(timeLeft))
      ensures !old(StartEnabled(Snapshot())) ==> Snapshot() == old(Snapshot())
      ensures task == old(task) && duration == old(duration)
    {
      if !isRunning && task != "" && duration >= 1 {
        if timeLeft == 0 {
          timeLeft := duration * 60;
        }
        isRunning := true;
      }
    }

    /** `handlePause`, reachable only through the pause button shown while running. */
    method Pause()
      requires Valid()
      modifies this
      ensures Valid() && Snapshot() == Next(old(Snapshot()), Event.Pause)
      ensures !isRunning
      ensures task == old(task) && duration == old(duration) && timeLeft == old(timeLeft)
    {
      if isRunning {
        isRunning := false;
      }
    }

    /** `handleReset`, reachable only through the reset button shown while running. */
    method Reset()
      requires Valid()
      modifies this
      ensures Valid() && Snapshot() == Next(old(Snapshot()), Event.Reset)
      ensures old(isRunning) ==> !isRunning && task == "" && duration == 45 && timeLeft == 0
      ensures !old(isRunning) ==> Snapshot() == old(Snapshot())
    {
      if isRunning {
        isRunning := false;
        task := "";
        duration := DefaultDuration;
        timeLeft := 0;
      }
    }

    /** One interval callback, then the effect on the state it leaves. */
    method Tick()
      requires Valid()
      modifies this
      ensures Valid() && Snapshot() == Next(old(Snapshot()), Event.Tick)
      ensures task == old(task) && duration == old(duration)
      ensures !old(isRunning) ==> Snapshot() == old(Snapshot())
      ensures old(isRunning) ==> timeLeft == old(timeLeft) - 1 && (isRunning <==> timeLeft > 0)
    {
      if isRunning && timeLeft > 0 {
        timeLeft := timeLeft - 1;
      }
      if timeLeft == 0 {
        isRunning := false;
      }
    }
  }
}
