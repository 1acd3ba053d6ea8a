/**
 * The camera speaker's talkback protocol: play, stop, completion and removal as
 * atomic steps between awaits, in every interleaving.
 */
module Talkback {
  import opened Text

  type StreamId = nat
  type TaskId = nat

  /** Where a task is; the constructors with a stream await something about it. */
  datatype Pc =
    | PlayWaiting                     // play: waiting for the lock
    | PlayStopping(stream: StreamId)  // play: awaiting the old stream's stop()
    | PlayStarting                    // play: awaiting the console's start, no stream yet
    | PlayStarted(stream: StreamId)   // play: the stream runs, the start has not returned
    | StopWaiting                     // stop: waiting for the lock
    | Stopping(stream: StreamId)      // stop: awaiting stop()
    | RemoveWaiting                   // removal: waiting for the lock
    | RemoveStopping(stream: StreamId)
    | Completing(stream: StreamId)    // completion task: awaiting the stream's end
    | Removed                         // removal has finished
    | Done

  /** The entity's fields, plus the console's running streams and the lock's holder. */
  datatype State = State(
    current: Option<StreamId>,
    completion: Option<TaskId>,
    removing: bool,
    lock: Option<TaskId>,
    tasks: map<TaskId, Pc>,
    running: set<StreamId>,
    started: set<StreamId>
  )

  const INITIAL := State(None, None, false, None, map[], {}, {})

  predicate Holds(pc: Pc) {
    pc.PlayStopping? || pc.PlayStarting? || pc.PlayStarted? || pc.Stopping? || pc.RemoveStopping?
  }

  predicate CurrentRuns(st: State) {
    st.current.Some? && st.current.value in st.running
  }

  function Goto(st: State, t: TaskId, pc: Pc): State {
    st.(tasks := st.tasks[t := pc])
  }

  function Acquire(st: State, t: TaskId, pc: Pc): State {
    Goto(st, t, pc).(lock := Some(t))
  }

  function Release(st: State, t: TaskId, pc: Pc): State {
    Goto(st, t, pc).(lock := None)
  }

  /** `if self._current_stream is stream: self._current_stream = None` */
  function Forget(st: State, s: StreamId): State {
    if st.current == Some(s) then st.(current := None) else st
  }

  /** The stream has ended, by itself or because it was stopped. */
  function Ended(st: State, s: StreamId): State {
    st.(running := st.running - {s})
  }

  /** Cancelling the completion task, if it is still waiting, runs its `finally`. */
  function CancelCompletion(st: State): State {
    if st.completion.Some? && st.completion.value in st.tasks && st.tasks[st.completion.value].Completing?
    then Goto(Forget(st, st.tasks[st.completion.value].stream), st.completion.value, Done)
    else st
  }

  datatype Step =
    | CallPlay(t: TaskId) | CallStop(t: TaskId) | CallRemove(t: TaskId)
    | PlayLocks(t: TaskId) | PlayStopReturns(t: TaskId, raises: bool)
    | StreamBegins(t: TaskId, s: StreamId) | StartReturns(t: TaskId, watcher: TaskId) | StartRaises(t: TaskId)
    | StopLocks(t: TaskId) | StopReturns(t: TaskId, raises: bool)
    | RemoveLocks(t: TaskId) | RemoveStopReturns(t: TaskId, raises: bool)
    | StreamEnds(s: StreamId) | Completes(t: TaskId)

  predicate At(st: State, t: TaskId, pc: Pc) {
    t in st.tasks && st.tasks[t] == pc
  }

  predicate Enabled(st: State, step: Step) {
    match step
    case CallPlay(t) => t !in st.tasks
    case CallStop(t) => t !in st.tasks
    case CallRemove(t) => t !in st.tasks
    case PlayLocks(t) => At(st, t, PlayWaiting) && st.lock == None
    case PlayStopReturns(t, _) => t in st.tasks && st.tasks[t].PlayStopping?
    case StreamBegins(t, s) => At(st, t, PlayStarting) && s !in st.started
    case StartReturns(t, watcher) => t in st.tasks && st.tasks[t].PlayStarted? && watcher !in st.tasks
    case StartRaises(t) => t in st.tasks && (st.tasks[t].PlayStarting? || st.tasks[t].PlayStarted?)
    case StopLocks(t) => At(st, t, StopWaiting) && st.lock == None
    case StopReturns(t, _) => t in st.tasks && st.tasks[t].Stopping?
    case RemoveLocks(t) => At(st, t, RemoveWaiting) && st.lock == None
    case RemoveStopReturns(t, _) => t in st.tasks && st.tasks[t].RemoveStopping?
    case StreamEnds(s) => s in st.running
    // `wait_until_complete` returns or raises only once the stream has ended.
    case Completes(t) => t in st.tasks && st.tasks[t].Completing? && st.tasks[t].stream !in st.running
  }

  /** What one step does; `stop()` ends its stream whether it returns or raises, and so does a start that raises. */
  function After(st: State, step: Step): State
    requires Enabled(st, step)
  {
    match step
    case CallPlay(t) => Goto(st, t, PlayWaiting)
    case CallStop(t) => Goto(st, t, StopWaiting)
    case CallRemove(t) => Goto(st.(removing := true), t, RemoveWaiting)
    case PlayLocks(t) =>
      if st.removing then Goto(st, t, Done)
      else if CurrentRuns(st) then Acquire(st, t, PlayStopping(st.current.value))
      else Acquire(st, t, PlayStarting)
    case PlayStopReturns(t, raises) =>
      var ended := Ended(st, st.tasks[t].stream);
      if raises then Release(ended, t, Done) else Goto(ended.(current := None), t, PlayStarting)
    case StreamBegins(t, s) =>
      Goto(st.(running := st.running + {s}, started := st.started + {s}), t, PlayStarted(s))
    case StartReturns(t, watcher) =>
      var s := st.tasks[t].stream;
      Goto(Release(st.(current := Some(s), completion := Some(watcher)), t, Done), watcher, Completing(s))
    case StartRaises(t) => Release(if st.tasks[t].PlayStarted? then Ended(st, st.tasks[t].stream) else st, t, Done)
    case StopLocks(t) =>
      if CurrentRuns(st) then Acquire(st, t, Stopping(st.current.value)) else Goto(st, t, Done)
    case StopReturns(t, raises) =>
      var s := st.tasks[t].stream;
      Release(if raises then Ended(st, s) else Forget(Ended(st, s), s), t, Done)
    case RemoveLocks(t) =>
      if st.current.Some? then Acquire(st, t, RemoveStopping(st.current.value))
      else Goto(CancelCompletion(st), t, Removed)
    case RemoveStopReturns(t, raises) =>
      var s := st.tasks[t].stream;
      if raises then Release(Ended(st, s), t, Done)
      else Release(CancelCompletion(Forget(Ended(st, s), s)), t, Removed)
    case StreamEnds(s) => Ended(st, s)
    case Completes(t) => Goto(Forget(st, st.tasks[t].stream), t, Done)
  }

  // ---------- The invariant ----------

  ghost predicate Starts(st: State, s: StreamId) {
    st.lock.Some? && At(st, st.lock.value, PlayStarted(s))
  }

  ghost predicate LockDiscipline(st: State) {
    && (st.lock.Some? ==> st.lock.value in st.tasks && Holds(st.tasks[st.lock.value]))
    && forall t :: t in st.tasks && Holds(st.tasks[t]) ==> st.lock == Some(t)
  }

  /** A running stream is the entity's current one, or the one its lock holder is starting. */
  ghost predicate Accounted(st: State) {
    && st.running <= st.started
    && (st.current.Some? ==> st.current.value in st.started)
    && forall s :: s in st.running ==> st.current == Some(s) || Starts(st, s)
  }

  /** What the lock holder may rely on. */
  ghost predicate HolderView(st: State) {
    st.lock.Some? && st.lock.value in st.tasks ==>
      match st.tasks[st.lock.value]
      case PlayStarting => !CurrentRuns(st)
      case PlayStarted(s) => !CurrentRuns(st) && s in st.started && st.current != Some(s)
      case PlayStopping(s) => st.current in {None, Some(s)}
      case Stopping(s) => st.current in {None, Some(s)}
      case RemoveStopping(s) => st.removing && st.current in {None, Some(s)}
      case _ => true
  }

  ghost predicate RemovalFinished(st: State) {
    exists t :: At(st, t, Removed)
  }

  /** After removal nothing is current, held or running, and nothing can start. */
  ghost predicate QuietAfterRemoval(st: State) {
    && (forall t :: t in st.tasks && (st.tasks[t].RemoveWaiting? || st.tasks[t].Removed?) ==> st.removing)
    && (RemovalFinished(st) ==> st.current == None && st.lock == None && st.running == {})
  }

  ghost predicate Inv(st: State) {
    LockDiscipline(st) && Accounted(st) && HolderView(st) && QuietAfterRemoval(st)
  }

  lemma InitialInv()
    ensures Inv(INITIAL)
  {
  }

  lemma StepKeepsInv(st: State, step: Step)
    requires Inv(st) && Enabled(st, step)
    ensures Inv(After(st, step))
  {
    var next := After(st, step);
    LockKept(st, step);
    AccountKept(st, step);
    HolderKept(st, step);
    QuietKept(st, step);
  }

  lemma LockKept(st: State, step: Step)
    requires Inv(st) && Enabled(st, step)
    ensures LockDiscipline(After(st, step))
  {
    hide Accounted, HolderView, QuietAfterRemoval, CurrentRuns;
  }

  lemma AccountKept(st: State, step: Step)
    requires Inv(st) && Enabled(st, step)
    ensures Accounted(After(st, step))
  {
    hide QuietAfterRemoval;
  }

  lemma HolderKept(st: State, step: Step)
    requires Inv(st) && Enabled(st, step)
    ensures HolderView(After(st, step))
  {
  }

  lemma QuietKept(st: State, step: Step)
    requires Inv(st) && Enabled(st, step)
    ensures QuietAfterRemoval(After(st, step))
  {
    var next := After(st, step);
    if RemovalFinished(st) {
      var t :| At(st, t, Removed);
      assert st.removing && next.running == {} && next.current == None && next.lock == None;
    } else if RemovalFinished(next) {
      var t :| At(next, t, Removed);
      assert !At(st, t, Removed);
      assert step == RemoveLocks(t) || (step.RemoveStopReturns? && step.t == t);
      assert next.running == {};
    }
  }

  // ---------- Executions ----------

  ghost predicate Next(st: State, st': State) {
    exists step :: Enabled(st, step) && st' == After(st, step)
  }

  /** Any interleaving of the entity's tasks, from its creation. */
  ghost predicate Execution(states: seq<State>) {
    && 0 < |states| && states[0] == INITIAL
    && forall i :: 0 <= i < |states| - 1 ==> Next(states[i], states[i + 1])
  }

  lemma {:induction false} InvThroughout(states: seq<State>, i: nat)
    requires Execution(states) && i < |states|
    ensures Inv(states[i])
  {
    if i == 0 {
      InitialInv();
    } else {
      InvThroughout(states, i - 1);
      assert Next(states[i - 1], states[i]);
      var step :| Enabled(states[i - 1], step) && states[i] == After(states[i - 1], step);
      StepKeepsInv(states[i - 1], step);
    }
  }

  /** Never do two talkback streams of the entity run at once. */
  lemma AtMostOneStream(states: seq<State>, i: nat, s: StreamId, s': StreamId)
    requires Execution(states) && i < |states| && s in states[i].running && s' in states[i].running
    ensures s == s'
  {
    InvThroughout(states, i);
  }

  /** Outside of a start, the entity reports PLAYING exactly while a stream runs. */
  lemma ReportsWhatRuns(states: seq<State>, i: nat)
    requires Execution(states) && i < |states|
    requires forall s :: !Starts(states[i], s)
    ensures CurrentRuns(states[i]) <==> states[i].running != {}
  {
    InvThroughout(states, i);
  }

  /** Once removal has finished, no stream runs and no stream starts. */
  lemma {:induction false} SilentAfterRemoval(states: seq<State>, i: nat, j: nat)
    requires Execution(states) && i <= j < |states| && RemovalFinished(states[i])
    ensures RemovalFinished(states[j]) && states[j].running == {} && states[j].started == states[i].started
  {
    hide Inv, Next, RemovalFinished;
    if i < j {
      SilentAfterRemoval(states, i, j - 1);
      InvThroughout(states, j - 1);
      NextStaysRemoved(states[j - 1], states[j]);
    }
    InvThroughout(states, j);
    RemovedIsQuiet(states[j]);
  }

  lemma RemovedIsQuiet(st: State)
    requires Inv(st) && RemovalFinished(st)
    ensures st.running == {}
  {
  }

  lemma NextStaysRemoved(st: State, st': State)
    requires Inv(st) && Next(st, st') && RemovalFinished(st)
    ensures RemovalFinished(st') && st'.started == st.started
  {
    hide Inv, Enabled, After;
    var step :| Enabled(st, step) && st' == After(st, step);
    var t :| At(st, t, Removed);
    RemovedStays(st, step, t);
  }

  lemma RemovedStays(st: State, step: Step, t: TaskId)
    requires Inv(st) && Enabled(st, step) && At(st, t, Removed)
    ensures At(After(st, step), t, Removed) && After(st, step).started == st.started
  {
  }

  // ---------- What a call achieves ----------

  /** A call waits for its turn; only a removal already says so. */
  lemma CallsWait(st: State, t: TaskId)
    requires t !in st.tasks
    ensures After(st, CallPlay(t)) == st.(tasks := st.tasks[t := PlayWaiting])
    ensures After(st, CallStop(t)) == st.(tasks := st.tasks[t := StopWaiting])
    ensures After(st, CallRemove(t)) == st.(tasks := st.tasks[t := RemoveWaiting], removing := true)
  {
  }

  /** A `stop()` that raises ends the call that awaits it and frees the lock; the stream stays current, ended. */
  lemma RaisingStopEnds(st: State, step: Step)
    requires Inv(st) && Enabled(st, step) && (step.PlayStopReturns? || step.StopReturns? || step.RemoveStopReturns?) && step.raises
    ensures var next := After(st, step);
      At(next, step.t, Done) && next.lock == None && next.current == st.current && next.running == {}
  {
  }

  /** A start that raises ends its call and frees the lock; nothing runs, and the current stream is as before. */
  lemma RaisingStartEnds(st: State, t: TaskId)
    requires Inv(st) && Enabled(st, StartRaises(t))
    ensures var next := After(st, StartRaises(t));
      At(next, t, Done) && next.lock == None && next.current == st.current && next.running == {}
  {
  }

  /** Without an error the next stream is started, under the lock and with none left. */
  lemma StoppedGoesOn(st: State, t: TaskId)
    requires Inv(st) && Enabled(st, PlayStopReturns(t, false))
    ensures var next := After(st, PlayStopReturns(t, false));
      At(next, t, PlayStarting) && next.lock == Some(t) && next.current == None && next.running == {}
  {
  }

  /** At its turn a stop call is done if nothing runs, and stops the running stream otherwise. */
  lemma StopTakesItsTurn(st: State, t: TaskId)
    requires Inv(st) && Enabled(st, StopLocks(t))
    ensures var next := After(st, StopLocks(t));
      if st.running == {} then next == st.(tasks := st.tasks[t := Done])
      else exists s :: st.running == {s} && next == st.(tasks := st.tasks[t := Stopping(s)], lock := Some(t))
  {
    if st.running != {} {
      var s :| s in st.running;
      assert st.current == Some(s);
      assert st.running == {s};
    }
  }

  /** However a stop call ends, no stream runs then. */
  lemma StopSilences(st: State, step: Step, t: TaskId)
    requires Inv(st) && Enabled(st, step) && t in st.tasks && (st.tasks[t].StopWaiting? || st.tasks[t].Stopping?)
    requires After(st, step).tasks[t].Done?
    ensures After(st, step).running == {} && After(st, step).lock == None
  {
    hide QuietAfterRemoval;
    EndsByItself(st, step, t);
  }

  lemma EndsByItself(st: State, step: Step, t: TaskId)
    requires Enabled(st, step) && t in st.tasks && (st.tasks[t].StopWaiting? || st.tasks[t].Stopping?)
    requires t in After(st, step).tasks && After(st, step).tasks[t].Done?
    ensures step == StopLocks(t) || (step.StopReturns? && step.t == t)
  {
  }

  /** Unless the entity is being removed, a play call at its turn stops what runs and starts otherwise. */
  lemma PlayTakesItsTurn(st: State, t: TaskId)
    requires Inv(st) && Enabled(st, PlayLocks(t))
    ensures var next := After(st, PlayLocks(t));
      if st.removing then next == st.(tasks := st.tasks[t := Done])
      else next.lock == Some(t) && next.current == st.current && next.running == st.running
           && if st.running == {} then next.tasks == st.tasks[t := PlayStarting]
              else exists s :: st.running == {s} && next.tasks == st.tasks[t := PlayStopping(s)]
  {
    if !st.removing && st.running != {} {
      var s :| s in st.running;
      assert st.current == Some(s);
      assert st.running == {s};
    }
  }

  /** A start that returns leaves its stream current and watched; it is the one that runs, unless it has ended already. */
  lemma PlayPlays(st: State, t: TaskId, watcher: TaskId)
    requires Inv(st) && Enabled(st, StartReturns(t, watcher))
    ensures var next, s := After(st, StartReturns(t, watcher)), st.tasks[t].stream;
      && next.current == Some(s) && next.running == (if s in st.running then {s} else {})
      && At(next, t, Done) && At(next, watcher, Completing(s)) && next.lock == None
  {
    var s := st.tasks[t].stream;
    assert forall r :: r in st.running ==> r == s;
  }

  /** A play call ends only with its stream current, by an error, or because the entity is being removed. */
  lemma PlayEnds(st: State, step: Step, t: TaskId)
    requires Inv(st) && Enabled(st, step)
    requires t in st.tasks && (st.tasks[t].PlayWaiting? || st.tasks[t].PlayStopping? || st.tasks[t].PlayStarting? || st.tasks[t].PlayStarted?)
    requires After(st, step).tasks[t].Done?
    ensures (st.removing && st.tasks[t].PlayWaiting?) || step == PlayStopReturns(t, true) || step == StartRaises(t)
            || (st.tasks[t].PlayStarted? && After(st, step).current == Some(st.tasks[t].stream))
  {
    hide QuietAfterRemoval, Accounted, HolderView, CurrentRuns;
  }

  /** When the current stream has ended, its completion leaves no current one. */
  lemma CompletionForgets(st: State, t: TaskId, s: StreamId)
    requires Inv(st) && At(st, t, Completing(s)) && s !in st.running && st.current == Some(s)
    ensures Enabled(st, Completes(t)) && After(st, Completes(t)).current == None && At(After(st, Completes(t)), t, Done)
  {
  }

  /** A removal that finishes leaves no completion waiting. */
  lemma RemovalCancels(st: State, step: Step, t: TaskId)
    requires Inv(st) && Enabled(st, step) && !At(st, t, Removed) && At(After(st, step), t, Removed)
    ensures var next := After(st, step);
      st.completion.Some? && st.completion.value in st.tasks && st.tasks[st.completion.value].Completing? ==>
        At(next, st.completion.value, Done)
  {
    hide Accounted, HolderView, QuietAfterRemoval;
  }

  /** The removal finishes at its turn if no stream is current, and with the stop of the current one otherwise. */
  lemma RemovalFinishes(st: State, t: TaskId)
    requires Inv(st) && Enabled(st, RemoveLocks(t))
    ensures var next := After(st, RemoveLocks(t));
      if st.current.None? then At(next, t, Removed)
      else At(next, t, RemoveStopping(st.current.value)) && At(After(next, RemoveStopReturns(t, false)), t, Removed)
  {
  }
}
