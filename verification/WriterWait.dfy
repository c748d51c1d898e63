/**
 The writer's wait on its condition variable, taken apart: the predicate is tested under the queue's mutex, and the
 mutex is then given up and the thread blocked in one go. Callers notify with the mutex held. Stop sets its flag and
 notifies without it, so its notification can fall between the test and the block.
 */
module WriterWait {
  import opened EndpointTable
  import opened CacheProtocol
  import Basics

  /** The stages of the wait: taking the mutex, testing with it, about to block with it, blocked without it. */
  datatype Phase = Entering | Holding | Falling | Blocked

  /** `phase` means something while the writer is at its wait; `told` says that stop has notified. */
  datatype WaitState = WaitState(core: State, phase: Phase, told: bool)

  datatype WaitAction = Caller(step: Action) | Writer | Flag | Notify | Spurious

  function WaitInit(table: Table, expiry: nat): WaitState {
    WaitState(Init(table, expiry), Entering, false)
  }

  predicate IsBlocked(s: WaitState) {
    s.core.pc.AtWait? && s.phase.Blocked?
  }

  predicate HasMutex(s: WaitState) {
    s.core.pc.AtWait? && (s.phase.Holding? || s.phase.Falling?)
  }

  predicate Enqueues(a: Action) {
    a.AddEnqueue? || a.DeleteEnqueue?
  }

  predicate CanMove(s: WaitState) {
    && !s.core.pc.Exited? && !IsBlocked(s)
    && (s.core.pc.Writing? ==> s.core.pc.next <= |s.core.working|)
  }

  /** What the writer thread does next. */
  function WriterStep(s: WaitState): WaitState
    requires CanMove(s)
  {
    if s.core.pc.AtTest? then s.(core := Step(s.core, TestRun), phase := Entering)
    else if s.core.pc.Writing? then
      s.(core := Step(s.core, if s.core.pc.next < |s.core.working| then ApplyRow else Commit))
    else if s.phase.Entering? then s.(phase := Holding)
    else if s.phase.Falling? then s.(phase := Blocked)
    else if Enabled(s.core, Swap) then s.(core := Step(s.core, Swap))
    else s.(phase := Falling)
  }

  /** notify_one: wakes the writer if it is blocked, and is lost otherwise. */
  function Notified(s: WaitState): WaitState {
    if IsBlocked(s) then s.(phase := Entering) else s
  }

  predicate WaitEnabled(s: WaitState, a: WaitAction) {
    match a
    case Caller(step) => Enabled(s.core, step) && (step.AddRead? || (Enqueues(step) && !HasMutex(s)))
    case Writer => CanMove(s)
    case Flag => s.core.run
    case Notify => !s.core.run && !s.told
    case Spurious => IsBlocked(s)
  }

  function WaitStep(s: WaitState, a: WaitAction): WaitState
    requires WaitEnabled(s, a)
  {
    match a
    case Caller(step) =>
      var t := s.(core := Step(s.core, step));
      if Enqueues(step) then Notified(t) else t
    case Writer => WriterStep(s)
    case Flag => s.(core := Step(s.core, Stop))
    case Notify => Notified(s).(told := true)
    case Spurious => s.(phase := Entering)
  }

  predicate WaitRuns(s: WaitState, actions: seq<WaitAction>, t: WaitState)
    decreases |actions|
  {
    if actions == [] then s == t
    else WaitEnabled(s, actions[0]) && WaitRuns(WaitStep(s, actions[0]), actions[1..], t)
  }

  /** Taking the wait apart adds no behaviour to the protocol: a run is one of the protocol's runs with pauses. */
  lemma {:induction false} WaitRefines(s: WaitState, actions: seq<WaitAction>, t: WaitState) returns (steps: seq<Action>)
    requires WaitRuns(s, actions, t)
    ensures Reaches(s.core, steps, t.core)
    decreases |actions|
  {
    if actions == [] {
      steps := [];
    } else {
      var next := WaitStep(s, actions[0]);
      steps := WaitRefines(next, actions[1..], t);
      var own := CoreStep(s, actions[0]);
      if own.Some? {
        FirstStep(s.core, own.value, steps, t.core);
        steps := [own.value] + steps;
      }
    }
  }

  lemma CoreStep(s: WaitState, a: WaitAction) returns (own: Basics.Option<Action>)
    requires WaitEnabled(s, a)
    ensures match own
            case Some(step) => Enabled(s.core, step) && WaitStep(s, a).core == Step(s.core, step)
            case None => WaitStep(s, a).core == s.core
  {
    match a
    case Caller(step) => own := Basics.Some(step);
    case Writer =>
      own := match s.core.pc
        case AtTest => Basics.Some(TestRun)
        case Writing(next) => Basics.Some(if next < |s.core.working| then ApplyRow else Commit)
        case _ => if s.phase.Holding? && Enabled(s.core, Swap) then Basics.Some(Swap) else Basics.None;
    case Flag => own := Basics.Some(Stop);
    case _ => own := Basics.None;
  }

  // ---------- Which stops the writer sleeps through ----------

  /** A writer that is asleep, or about to be, has found the queue empty, and it still is. */
  predicate WaitInv(s: WaitState) {
    && (s.core.pc.Writing? ==> s.core.pc.next <= |s.core.working|)
    && (s.core.pc.AtWait? && (s.phase.Falling? || s.phase.Blocked?) ==> s.core.batch == [])
    && (s.told ==> !s.core.run)
  }

  lemma {:induction false} WaitRunKeepsInv(s: WaitState, actions: seq<WaitAction>, t: WaitState)
    requires WaitInv(s) && WaitRuns(s, actions, t)
    ensures WaitInv(t)
    decreases |actions|
  {
    if actions != [] {
      WaitRunKeepsInv(WaitStep(s, actions[0]), actions[1..], t);
    }
  }

  /** Steps that a writer left alone with the flag down still takes, at most. */
  function StepsLeft(s: WaitState): nat {
    match s.core.pc
    case Exited => 0
    case AtTest => 1
    case Writing(next) => if next <= |s.core.working| then |s.core.working| - next + 2 else 0
    case AtWait =>
      match s.phase
      case Blocked => 0
      case Falling => 1
      case Holding => |s.core.batch| + 3
      case Entering => |s.core.batch| + 4
  }

  /** Where the writer ends when nobody else does anything more. */
  function Finish(s: WaitState): WaitState
    requires !s.core.run
    decreases StepsLeft(s)
  {
    if CanMove(s) then Finish(WriterStep(s)) else s
  }

  lemma {:induction false} FinishExactly(s: WaitState)
    requires WaitInv(s) && !s.core.run
    ensures var sleeps := s.core.pc.AtWait? && (s.phase.Falling? || s.phase.Blocked?);
            if sleeps then IsBlocked(Finish(s)) && Finish(s).core == s.core else Finish(s).core.pc.Exited?
    decreases StepsLeft(s)
  {
    hide Apply;
    if CanMove(s) {
      FinishExactly(WriterStep(s));
    }
  }

  /**
   After stop's notification the writer, left alone, exits: exactly if it was not then between a test that found
   nothing to do and the block that follows it. In that case it sleeps on with the flag down.
   */
  lemma StopExactly(table: Table, expiry: nat, actions: seq<WaitAction>, s: WaitState)
    requires WaitRuns(WaitInit(table, expiry), actions, s) && WaitEnabled(s, Notify)
    ensures var end := Finish(WaitStep(s, Notify));
            && (end.core.pc.Exited? <==> !(s.core.pc.AtWait? && s.phase.Falling?))
            && (IsBlocked(end) <==> s.core.pc.AtWait? && s.phase.Falling?)
  {
    WaitRunKeepsInv(WaitInit(table, expiry), actions, s);
    FinishExactly(WaitStep(s, Notify));
  }

  /** Such a writer stays asleep through everything but an enqueue or a spurious wake-up. */
  lemma {:induction false} SleepsOn(s: WaitState, actions: seq<WaitAction>, t: WaitState)
    requires IsBlocked(s) && s.told && !s.core.run && WaitRuns(s, actions, t)
    requires forall a :: a in actions ==> !a.Spurious? && (a.Caller? ==> !Enqueues(a.step))
    ensures IsBlocked(t) && t.core.committed == s.core.committed
    decreases |actions|
  {
    if actions != [] {
      assert actions[0] in actions;
      SleepsOn(WaitStep(s, actions[0]), actions[1..], t);
    }
  }

  /** A run to such a state: the writer tests, stop sets its flag and notifies, and only then does the writer block. */
  lemma LostWakeUpExample(table: Table) returns (actions: seq<WaitAction>, s: WaitState)
    ensures WaitRuns(WaitInit(table, 60), actions, s)
    ensures IsBlocked(s) && s.told && !s.core.run
  {
    var s0 := WaitInit(table, 60);
    var s1 := WaitStep(s0, Writer);
    var s2 := WaitStep(s1, Writer);
    var s3 := WaitStep(s2, Writer);
    var s4 := WaitStep(s3, Flag);
    var s5 := WaitStep(s4, Notify);
    s := WaitStep(s5, Writer);
    actions := [];
    actions := FirstWait(s5, Writer, actions, s);
    actions := FirstWait(s4, Notify, actions, s);
    actions := FirstWait(s3, Flag, actions, s);
    actions := FirstWait(s2, Writer, actions, s);
    actions := FirstWait(s1, Writer, actions, s);
    actions := FirstWait(s0, Writer, actions, s);
  }

  lemma FirstWait(s: WaitState, a: WaitAction, rest: seq<WaitAction>, t: WaitState) returns (actions: seq<WaitAction>)
    requires WaitEnabled(s, a) && WaitRuns(WaitStep(s, a), rest, t)
    ensures actions == [a] + rest && WaitRuns(s, actions, t)
  {
    hide WaitStep, WaitEnabled;
    actions := [a] + rest;
    assert actions[1..] == rest;
  }
}
