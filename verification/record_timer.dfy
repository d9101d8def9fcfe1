/** The record page's timer: a recording flag, the elapsed seconds and a
    progress percentage capped at 100. Start, stop and the once-a-second
    interval tick are explicit transitions; the interval only exists while
    recording, so a tick in the idle state changes nothing. */
module RecordTimer {

  datatype Timer = Timer(isRecording: bool, time: nat, progress: nat)

  datatype Event = StartPressed | StopPressed | Tick

  const MaxProgress: nat := 100

  function Min(a: nat, b: nat): (m: nat)
  {
    if a <= b then a else b
  }

  /** The page's state before any interaction. */
  const Initial: Timer := Timer(false, 0, 0)

  /** `handleStartRecording`: recording, with both counters reset. */
  function Start(t: Timer): (r: Timer)
    ensures r.isRecording && r.time == 0 && r.progress == 0
  {
    Timer(true, 0, 0)
  }

  /** `handleStopRecording`: only the flag changes. */
  function Stop(t: Timer): (r: Timer)
    ensures !r.isRecording
    ensures r.time == t.time && r.progress == t.progress
  {
    t.(isRecording := false)
  }

  /** The interval body: one more second, one more percent up to the cap. */
  function OnTick(t: Timer): (r: Timer)
    ensures r.isRecording == t.isRecording
    ensures t.isRecording ==> r.time == t.time + 1
    ensures t.isRecording ==> r.progress == Min(t.progress + 1, MaxProgress)
    ensures !t.isRecording ==> r == t
    ensures t.progress <= MaxProgress ==> t.progress <= r.progress <= MaxProgress
  {
    if t.isRecording then Timer(true, t.time + 1, Min(t.progress + 1, MaxProgress))
    else t
  }

  function Step(t: Timer, e: Event): (r: Timer)
  {
    match e
    case StartPressed => Start(t)
    case StopPressed => Stop(t)
    case Tick => OnTick(t)
  }

  function Run(t: Timer, events: seq<Event>): (r: Timer)
    decreases |events|
  {
    if events == [] then t else Run(Step(t, events[0]), events[1..])
  }

  /** Progress always equals the elapsed time capped at 100. */
  predicate Consistent(t: Timer)
  {
    t.progress == Min(t.time, MaxProgress)
  }

  /** Every transition keeps the counters consistent. */
  lemma StepConsistent(t: Timer, e: Event)
    requires Consistent(t)
    ensures Consistent(Step(t, e))
  {
  }

  /** From the initial state, whatever the user does, progress equals the
      capped elapsed time and so never exceeds 100. */
  lemma {:induction false} RunConsistent(t: Timer, events: seq<Event>)
    requires Consistent(t)
    ensures Consistent(Run(t, events))
    ensures Run(t, events).progress <= MaxProgress
    decreases |events|
  {
    if events != [] {
      StepConsistent(t, events[0]);
      RunConsistent(Step(t, events[0]), events[1..]);
    }
  }

  /** Whatever sequence of presses and ticks the page sees from its initial
      state, the progress bar never passes 100. */
  lemma ProgressNeverExceedsMax(events: seq<Event>)
    ensures Run(Initial, events).progress <= MaxProgress
    ensures Run(Initial, events).progress == Min(Run(Initial, events).time, MaxProgress)
  {
    RunConsistent(Initial, events);
  }

  /** After `n` ticks from a start, whatever the state before it, the elapsed
      time is `n` and progress is `min(n, 100)`. */
  lemma {:induction false} TicksAfterStart(t: Timer, n: nat)
    ensures var r := Run(Start(t), seq(n, _ => Tick));
      r.isRecording && r.time == n && r.progress == Min(n, MaxProgress)
  {
    if n > 0 {
      TicksAfterStart(t, n - 1);
      TicksAppend(Start(t), n - 1);
    }
  }

  /** One more tick at the end of a run of ticks. */
  lemma {:induction false} TicksAppend(t: Timer, n: nat)
    ensures Run(t, seq(n + 1, _ => Tick)) == OnTick(Run(t, seq(n, _ => Tick)))
    decreases n
  {
    var ticks: seq<Event> := seq(n + 1, _ => Tick);
    assert ticks[1..] == seq(n, _ => Tick);
    if n > 0 {
      TicksAppend(OnTick(t), n - 1);
      assert seq(n, _ => Tick)[1..] == seq(n - 1, _ => Tick);
    }
  }

  /** Within a session (no start pressed) progress never decreases, and a
      stop leaves both counters where they were. */
  lemma {:induction false} ProgressMonotone(t: Timer, events: seq<Event>)
    requires t.progress <= MaxProgress
    requires forall i :: 0 <= i < |events| ==> events[i] != StartPressed
    ensures Run(t, events).progress >= t.progress
    ensures Run(t, events).time >= t.time
    decreases |events|
  {
    if events != [] {
      assert events[0] != StartPressed;
      ProgressMonotone(Step(t, events[0]), events[1..]);
    }
  }

  /** After a stop, ticks no longer advance the counters. */
  lemma {:induction false} IdleTicksChangeNothing(t: Timer, n: nat)
    ensures Run(Stop(t), seq(n, _ => Tick)) == Stop(t)
  {
    if n > 0 {
      assert seq(n, _ => Tick)[1..] == seq(n - 1, _ => Tick);
      IdleTicksChangeNothing(t, n - 1);
    }
  }
}
