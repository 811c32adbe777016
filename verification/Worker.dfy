/** The protocol between any number of controller threads and a worker thread
    (libdevcore/Worker.h and Worker.cpp), as a machine whose steps are single accesses to the shared
    state. Any interleaving of enabled steps is a run; a spinning wait is a step that changes nothing. */
module Worker {
  import opened Wrappers

  /** The atomic m_state. */
  datatype Flag = Starting | Started | Stopping | Stopped | Killing

  /** startWorking, stopWorking and the destructor. */
  datatype Call = Start | Stop | Destroy

  /** Where a controller is: outside, past the lock, creating the thread, holding a new thread that
      m_work does not yet point to, spinning or joining, after the join, or about to unlock. */
  datatype Controller =
    | Idle
    | Entered(call: Call)
    | Spawning
    | Assigning(thread: nat)
    | Waiting(call: Call)
    | Resetting
    | Leaving(call: Call)

  /** Where a worker thread is: at the loop test, at the exchange of Starting for Started, inside
      workLoop, at the exchange for Stopped, putting a state back, at the parking loop, or gone. */
  datatype Thread = Testing | Claiming | Working | Recording | Restoring(ex: Flag) | Parked | Exited

  /** m_state, m_work and all the threads ever created. */
  datatype Shared = Shared(flag: Flag, work: Option<nat>, threads: seq<Thread>)

  /** holder is the owner of x_work. */
  datatype State = State(shared: Shared, holder: Option<nat>, controllers: seq<Controller>)

  /** A controller makes a call, or takes its next step; a thread takes its next step, which for a
      thread inside workLoop is its return or an exception. */
  datatype Step = Enter(controller: nat, call: Call) | Move(controller: nat) | Advance(thread: nat)

  function Init(controllers: nat): State {
    State(Shared(Starting, None, []), None, seq(controllers, _ => Idle))
  }

  // ----- the atomic steps

  /** compare_exchange_strong. */
  function CompareExchange(flag: Flag, expected: Flag, desired: Flag): Flag {
    if flag == expected then desired else flag
  }

  /** The next step of a controller that owns the lock. */
  function OwnerStep(c: Controller, m: Shared): (Controller, Shared) {
    match c
    case Entered(Start) =>
      if m.work.Some? then (Waiting(Start), m.(flag := CompareExchange(m.flag, Stopped, Starting)))
      else (Spawning, m.(flag := Starting))
    case Spawning => (Assigning(|m.threads|), m.(threads := m.threads + [Testing]))
    case Assigning(j) => (Waiting(Start), m.(work := Some(j)))
    case Waiting(Start) => (if m.flag == Starting then c else Leaving(Start), m)
    case Entered(Stop) =>
      if m.work.Some? then (Waiting(Stop), m.(flag := CompareExchange(m.flag, Started, Stopping)))
      else (Leaving(Stop), m)
    case Waiting(Stop) => (if m.flag != Stopped then c else Leaving(Stop), m)
    case Entered(Destroy) =>
      if m.work.Some? then (Waiting(Destroy), m.(flag := Killing)) else (Leaving(Destroy), m)
    case Waiting(Destroy) =>
      var joined := m.work.Some? && m.work.value < |m.threads| && m.threads[m.work.value] == Exited;
      (if joined then Resetting else c, m)
    case Resetting => (Leaving(Destroy), m.(work := None))
    case Leaving(_) => (Idle, m)
    case Idle => (Idle, m)
  }

  /** The next step of a thread: its new place and the new flag. */
  function ThreadStep(t: Thread, flag: Flag): (Thread, Flag) {
    match t
    case Testing => (if flag != Killing then Claiming else Exited, flag)
    case Claiming => (Working, CompareExchange(flag, Starting, Started))
    case Working => (Recording, flag)
    case Recording => (if flag == Killing || flag == Starting then Restoring(flag) else Parked, Stopped)
    case Restoring(ex) => (Parked, ex)
    case Parked => (if flag == Stopped then Parked else Testing, flag)
    case Exited => (Exited, flag)
  }

  function AdvanceThread(m: Shared, j: nat): Shared
    requires j < |m.threads|
  {
    var (t, f) := ThreadStep(m.threads[j], m.flag);
    m.(threads := m.threads[j := t], flag := f)
  }

  function Next(s: State, step: Step): Option<State> {
    match step
    case Enter(i, call) =>
      if i < |s.controllers| && s.controllers[i] == Idle && s.holder == None then
        Some(s.(holder := Some(i), controllers := s.controllers[i := Entered(call)]))
      else None
    case Move(i) =>
      if i < |s.controllers| && s.controllers[i] != Idle then
        var (c, m) := OwnerStep(s.controllers[i], s.shared);
        Some(State(m, if c == Idle then None else s.holder, s.controllers[i := c]))
      else None
    case Advance(j) =>
      if j < |s.shared.threads| && s.shared.threads[j] != Exited then
        Some(s.(shared := AdvanceThread(s.shared, j)))
      else None
  }

  /** The state after a sequence of steps, if each is enabled in its turn. */
  function Run(s: State, steps: seq<Step>): Option<State>
    decreases |steps|
  {
    if steps == [] then Some(s)
    else
      match Next(s, steps[0])
      case None => None
      case Some(s') => Run(s', steps[1..])
  }

  // ----- the invariant

  /** What the owner of the lock is doing; Idle when nobody owns it. */
  function Owner(s: State): Controller {
    if s.holder.Some? && s.holder.value < |s.controllers| then s.controllers[s.holder.value] else Idle
  }

  /** The one thread that may not be gone. */
  function Live(c: Controller, m: Shared): Option<nat> {
    if c.Assigning? then Some(c.thread) else m.work
  }

  /** Nothing is changing: the body runs, or is about to be recorded as stopped, or the thread is parked. */
  predicate Settled(t: Thread, f: Flag) {
    (t == Working && f == Started) || (t == Recording && f == Started) || (t == Parked && f == Stopped)
  }

  predicate BeingStarted(t: Thread, f: Flag) {
    f == Starting && (t == Parked || t == Testing || t == Claiming)
  }

  predicate BeingStopped(t: Thread, f: Flag) {
    f == Stopping && (t == Working || t == Recording)
  }

  /** A kill is either in the flag or in the hands of the thread that took it out. */
  predicate BeingKilled(t: Thread, f: Flag) {
    || (f == Killing && (t == Working || t == Recording || t == Parked || t == Testing || t == Exited))
    || (f == Stopped && t == Restoring(Killing))
  }

  /** What the owner's position says about the live thread and the flag. */
  predicate Agrees(c: Controller, t: Thread, f: Flag) {
    match c
    case Idle => Settled(t, f)
    case Entered(_) => Settled(t, f)
    case Spawning => false
    case Assigning(_) => Settled(t, f) || BeingStarted(t, f)
    case Waiting(Start) => Settled(t, f) || BeingStarted(t, f)
    case Waiting(Stop) => BeingStopped(t, f) || (t == Parked && f == Stopped)
    case Waiting(Destroy) => BeingKilled(t, f)
    case Resetting => t == Exited && f == Killing
    case Leaving(Start) => Settled(t, f)
    case Leaving(Stop) => t == Parked && f == Stopped
    case Leaving(Destroy) => false
  }

  predicate AgreesWithout(c: Controller, f: Flag) {
    match c
    case Idle => true
    case Entered(_) => true
    case Spawning => f == Starting
    case Leaving(call) => call != Start
    case _ => false
  }

  /** Only the owner of the lock is inside a call. */
  ghost predicate LockHeld(s: State) {
    && (s.holder.Some? ==> s.holder.value < |s.controllers| && s.controllers[s.holder.value] != Idle)
    && (forall i :: 0 <= i < |s.controllers| && s.holder != Some(i) ==> s.controllers[i] == Idle)
  }

  ghost predicate OthersGone(c: Controller, m: Shared) {
    && (Live(c, m).Some? ==> Live(c, m).value < |m.threads|)
    && (forall j :: 0 <= j < |m.threads| && Live(c, m) != Some(j) ==> m.threads[j] == Exited)
  }

  ghost predicate Orderly(c: Controller, m: Shared) {
    && OthersGone(c, m)
    && (if Live(c, m).Some? then Agrees(c, m.threads[Live(c, m).value], m.flag) else AgreesWithout(c, m.flag))
    && (c.Assigning? ==> m.work.None?)
  }

  ghost predicate Inv(s: State) {
    LockHeld(s) && Orderly(Owner(s), s.shared)
  }

  lemma InvInit(n: nat)
    ensures Inv(Init(n))
  {
  }

  lemma OwnerStepKeepsOrder(c: Controller, m: Shared)
    requires c != Idle && Orderly(c, m)
    ensures Orderly(OwnerStep(c, m).0, OwnerStep(c, m).1)
  {
  }

  lemma ThreadStepKeepsOrder(c: Controller, m: Shared, j: nat)
    requires Orderly(c, m) && j < |m.threads| && m.threads[j] != Exited
    ensures Orderly(c, AdvanceThread(m, j)) && Live(c, m) == Some(j)
  {
  }

  lemma InvNext(s: State, step: Step)
    requires Inv(s) && Next(s, step).Some?
    ensures Inv(Next(s, step).value)
  {
    hide Orderly, OwnerStep, AdvanceThread;
    match step
    case Enter(i, call) => EnterKeepsOrder(s.shared, call);
    case Move(i) => OwnerStepKeepsOrder(s.controllers[i], s.shared);
    case Advance(j) => ThreadStepKeepsOrder(Owner(s), s.shared, j);
  }

  lemma EnterKeepsOrder(m: Shared, call: Call)
    requires Orderly(Idle, m)
    ensures Orderly(Entered(call), m)
  {
  }

  lemma {:induction false} InvRun(s: State, steps: seq<Step>)
    requires Inv(s) && Run(s, steps).Some?
    ensures Inv(Run(s, steps).value)
    decreases |steps|
  {
    hide Next, Inv;
    if steps != [] {
      InvNext(s, steps[0]);
      InvRun(Next(s, steps[0]).value, steps[1..]);
    }
  }

  // ----- safety over every run

  predicate BodyRuns(s: State, j: nat) {
    j < |s.shared.threads| && s.shared.threads[j] == Working
  }

  /** However many controllers call what and when, and even when bodies return on their own: two
      bodies never run at once, no thread ever puts Starting back, and the exchange of Starting for
      Started never fails. */
  lemma AtMostOneBody(n: nat, steps: seq<Step>)
    requires Run(Init(n), steps).Some?
    ensures var s := Run(Init(n), steps).value;
            && (forall j, k :: BodyRuns(s, j) && BodyRuns(s, k) ==> j == k)
            && Restoring(Starting) !in s.shared.threads
            && (Claiming in s.shared.threads ==> s.shared.flag == Starting)
  {
    hide Run, Init;
    InvInit(n);
    InvRun(Init(n), steps);
  }

  predicate InStart(c: Controller) {
    c == Entered(Start) || c == Spawning || c.Assigning? || c == Waiting(Start) || c == Leaving(Start)
  }

  /** No body is running and, unless somebody calls startWorking, none will. */
  ghost predicate Quiet(c: Controller, m: Shared) {
    && Orderly(c, m) && !InStart(c)
    && (forall t :: t in m.threads ==> t != Working && t != Recording && t != Claiming)
  }

  lemma QuietStays(s: State, step: Step)
    requires Inv(s) && Quiet(Owner(s), s.shared) && Next(s, step).Some?
    requires !(step.Enter? && step.call == Start)
    ensures Quiet(Owner(Next(s, step).value), Next(s, step).value.shared)
  {
    hide Orderly;
    InvNext(s, step);
    match step
    case Enter(i, call) =>
    case Move(i) => OwnerStaysQuiet(s.controllers[i], s.shared);
    case Advance(j) => ThreadStaysQuiet(Owner(s), s.shared, j);
  }

  lemma OwnerStaysQuiet(c: Controller, m: Shared)
    requires c != Idle && Quiet(c, m)
    ensures Quiet(OwnerStep(c, m).0, OwnerStep(c, m).1)
  {
    OwnerStepKeepsOrder(c, m);
  }

  lemma ThreadStaysQuiet(c: Controller, m: Shared, j: nat)
    requires Quiet(c, m) && j < |m.threads| && m.threads[j] != Exited
    ensures Quiet(c, AdvanceThread(m, j))
  {
    ThreadStepKeepsOrder(c, m, j);
    assert m.threads[j] in m.threads;
  }

  lemma {:induction false} QuietRun(s: State, steps: seq<Step>)
    requires Inv(s) && Quiet(Owner(s), s.shared) && Run(s, steps).Some?
    requires forall step :: step in steps && step.Enter? ==> step.call != Start
    ensures var s' := Run(s, steps).value; Inv(s') && Quiet(Owner(s'), s'.shared)
    decreases |steps|
  {
    hide Next, Inv, Quiet;
    if steps != [] {
      InvNext(s, steps[0]);
      QuietStays(s, steps[0]);
      QuietRun(Next(s, steps[0]).value, steps[1..]);
    }
  }

  /** When stopWorking is about to return, no body is running, and none runs at any point of any
      continuation in which startWorking is not called. */
  lemma StopIsEffective(n: nat, before: seq<Step>, after: seq<Step>, i: nat)
    requires Run(Init(n), before).Some?
    requires var s := Run(Init(n), before).value; i < n && i < |s.controllers| && s.controllers[i] == Leaving(Stop)
    requires Run(Run(Init(n), before).value, after).Some?
    requires forall step :: step in after && step.Enter? ==> step.call != Start
    ensures var s' := Run(Run(Init(n), before).value, after).value;
            forall j :: !BodyRuns(s', j)
  {
    hide Run, Init;
    InvInit(n);
    InvRun(Init(n), before);
    var s := Run(Init(n), before).value;
    assert Owner(s) == Leaving(Stop);
    QuietRun(s, after);
    var s' := Run(s, after).value;
    assert forall j: nat :: BodyRuns(s', j) ==> s'.shared.threads[j] in s'.shared.threads;
  }

  /** While the destructor waits, the kill is in the flag or about to be put back there, and no body
      can begin; when it returns, every thread is gone. */
  lemma KillIsKept(n: nat, steps: seq<Step>, i: nat)
    requires Run(Init(n), steps).Some? && i < |Run(Init(n), steps).value.controllers|
    ensures var s := Run(Init(n), steps).value;
            && (s.controllers[i] == Waiting(Destroy) ==>
                  && (s.shared.flag == Killing || (s.shared.flag == Stopped && Restoring(Killing) in s.shared.threads))
                  && Claiming !in s.shared.threads)
            && (s.controllers[i] == Leaving(Destroy) ==> forall t :: t in s.shared.threads ==> t == Exited)
  {
    hide Run, Init;
    InvInit(n);
    InvRun(Init(n), steps);
    var s := Run(Init(n), steps).value;
    if s.controllers[i] != Idle {
      assert Owner(s) == s.controllers[i];
    }
  }

  // ----- every wait ends

  predicate WaitOver(c: Controller, m: Shared)
    requires c.Waiting?
  {
    match c.call
    case Start => m.flag != Starting
    case Stop => m.flag == Stopped
    case Destroy => forall t :: t in m.threads ==> t == Exited
  }

  /** How many thread steps a wait can still last. */
  function Remaining(call: Call, t: Thread): nat {
    match call
    case Start => (match t case Parked => 3 case Testing => 2 case Claiming => 1 case _ => 0)
    case Stop => (match t case Working => 2 case Recording => 1 case _ => 0)
    case Destroy =>
      (match t
       case Working => 5 case Recording => 4 case Restoring(_) => 3 case Parked => 2 case Testing => 1 case _ => 0)
  }

  lemma WaitShrinks(c: Controller, m: Shared, j: nat)
    requires Orderly(c, m) && c.Waiting? && !WaitOver(c, m)
    requires j < |m.threads| && m.threads[j] != Exited
    ensures Live(c, m) == Some(j)
    ensures Remaining(c.call, AdvanceThread(m, j).threads[j]) < Remaining(c.call, m.threads[j])
  {
  }

  function ThreadSteps(steps: seq<Step>): nat {
    if steps == [] then 0 else (if steps[0].Advance? then 1 else 0) + ThreadSteps(steps[1..])
  }

  function Patience(c: Controller, m: Shared): nat
    requires c.Waiting?
  {
    var l := Live(c, m);
    if l.Some? && l.value < |m.threads| then Remaining(c.call, m.threads[l.value]) else 0
  }

  ghost predicate WaitIsOver(s: State) {
    Owner(s).Waiting? && WaitOver(Owner(s), s.shared)
  }

  /** A controller that waits has its condition met within five steps of the worker thread, whatever
      the other controllers do: when workLoop returns, no wait lasts for ever. The condition stays met
      until the waiting controller looks, and then it stops waiting. */
  lemma {:induction false} WaitsEnd(s: State, i: nat, steps: seq<Step>)
    requires Inv(s) && i < |s.controllers| && s.controllers[i].Waiting?
    requires Run(s, steps).Some? && ThreadSteps(steps) >= Patience(s.controllers[i], s.shared)
    ensures Patience(s.controllers[i], s.shared) <= 5
    ensures exists k :: 0 <= k <= |steps| && Run(s, steps[..k]).Some? && WaitIsOver(Run(s, steps[..k]).value)
    ensures Move(i) !in steps ==> WillLeave(Run(s, steps).value, i)
    decreases |steps|
  {
    hide Orderly, AdvanceThread, WaitOver, WillLeave;
    var c := s.controllers[i];
    assert Owner(s) == c;
    if WaitOver(c, s.shared) {
      assert Run(s, steps[..0]) == Some(s);
      assert WaitIsOver(Run(s, steps[..0]).value);
      if Move(i) !in steps {
        OverStaysOver(s, i, steps);
      }
    } else {
      LiveWhileWaiting(c, s.shared);
      assert steps != [];
      var s' := Next(s, steps[0]).value;
      InvNext(s, steps[0]);
      OneStepOfWaiting(s, i, steps[0]);
      WaitsEnd(s', i, steps[1..]);
      var k :| 0 <= k <= |steps[1..]| && Run(s', steps[1..][..k]).Some? && WaitIsOver(Run(s', steps[1..][..k]).value);
      assert steps[..k + 1][1..] == steps[1..][..k] && steps[..k + 1][0] == steps[0];
      assert Run(s, steps[..k + 1]) == Run(s', steps[1..][..k]);
    }
  }

  /** Controller i waits for something that has happened: its next step ends the wait. */
  ghost predicate WillLeave(s: State, i: nat) {
    && i < |s.controllers| && s.controllers[i].Waiting? && WaitOver(s.controllers[i], s.shared)
    && Next(s, Move(i)).Some? && !Next(s, Move(i)).value.controllers[i].Waiting?
  }

  lemma OverMeansLeaving(s: State, i: nat)
    requires Inv(s) && i < |s.controllers| && s.controllers[i].Waiting? && WaitOver(s.controllers[i], s.shared)
    ensures WillLeave(s, i)
  {
    assert Owner(s) == s.controllers[i];
    var m := s.shared;
    if s.controllers[i].call == Destroy {
      assert m.threads[m.work.value] in m.threads;
    }
  }

  lemma ThreadKeepsOver(c: Controller, m: Shared, j: nat)
    requires Orderly(c, m) && c.Waiting? && WaitOver(c, m) && j < |m.threads| && m.threads[j] != Exited
    ensures WaitOver(c, AdvanceThread(m, j))
  {
    assert m.threads[j] in m.threads;
    ThreadStepKeepsOrder(c, m, j);
  }

  lemma {:induction false} OverStaysOver(s: State, i: nat, steps: seq<Step>)
    requires Inv(s) && i < |s.controllers| && s.controllers[i].Waiting? && WaitOver(s.controllers[i], s.shared)
    requires Run(s, steps).Some? && Move(i) !in steps
    ensures WillLeave(Run(s, steps).value, i)
    decreases |steps|
  {
    hide Orderly, AdvanceThread, WaitOver, WillLeave;
    assert Owner(s) == s.controllers[i];
    if steps == [] {
      OverMeansLeaving(s, i);
    } else {
      assert steps[0] in steps;
      InvNext(s, steps[0]);
      match steps[0] {
        case Enter(_, _) =>
        case Move(k) =>
        case Advance(j) => ThreadKeepsOver(s.controllers[i], s.shared, j);
      }
      OverStaysOver(Next(s, steps[0]).value, i, steps[1..]);
    }
  }

  lemma LiveWhileWaiting(c: Controller, m: Shared)
    requires Orderly(c, m) && c.Waiting? && !WaitOver(c, m)
    ensures Patience(c, m) > 0
  {
  }

  lemma OneStepOfWaiting(s: State, i: nat, step: Step)
    requires Inv(s) && i < |s.controllers| && s.controllers[i].Waiting? && Next(s, step).Some?
    requires !WaitOver(s.controllers[i], s.shared)
    ensures var s' := Next(s, step).value;
            && |s'.controllers| == |s.controllers| && s'.controllers[i] == s.controllers[i]
            && Patience(s'.controllers[i], s'.shared) + (if step.Advance? then 1 else 0)
               <= Patience(s.controllers[i], s.shared)
  {
    assert Owner(s) == s.controllers[i];
    match step
    case Enter(_, _) =>
    case Move(k) =>
      assert k == i;
      assert s.controllers[i := s.controllers[i]] == s.controllers;
    case Advance(j) => WaitShrinks(s.controllers[i], s.shared, j);
  }

  // ----- bodies that return only when told to

  /** workLoop returns only once shouldStop() holds. */
  predicate Obedient(s: State, step: Step) {
    step.Advance? && BodyRuns(s, step.thread) ==> s.shared.flag != Started
  }

  predicate ObedientRun(s: State, steps: seq<Step>)
    decreases |steps|
  {
    steps != [] ==>
      && Obedient(s, steps[0])
      && (Next(s, steps[0]).Some? ==> ObedientRun(Next(s, steps[0]).value, steps[1..]))
  }

  ghost predicate BodyIsOn(m: Shared, t: Thread) {
    t == Working && m.flag == Started
  }

  /** With such bodies a thread leaves workLoop only for a stop or a kill, and a start call waits
      until the body runs. */
  ghost predicate Disciplined(c: Controller, m: Shared) {
    && Orderly(c, m)
    && (Live(c, m).Some? ==>
          var t := m.threads[Live(c, m).value];
          && !(t == Recording && m.flag == Started)
          && (c.Assigning? || c == Waiting(Start) ==> BeingStarted(t, m.flag) || BodyIsOn(m, t))
          && (c == Leaving(Start) ==> BodyIsOn(m, t)))
  }

  lemma OwnerStaysDisciplined(c: Controller, m: Shared)
    requires c != Idle && Disciplined(c, m)
    ensures Disciplined(OwnerStep(c, m).0, OwnerStep(c, m).1)
  {
    OwnerStepKeepsOrder(c, m);
  }

  lemma ThreadStaysDisciplined(c: Controller, m: Shared, j: nat)
    requires Disciplined(c, m) && j < |m.threads| && m.threads[j] != Exited
    requires m.threads[j] == Working ==> m.flag != Started
    ensures Disciplined(c, AdvanceThread(m, j))
  {
    ThreadStepKeepsOrder(c, m, j);
  }

  lemma DisciplineStays(s: State, step: Step)
    requires Inv(s) && Disciplined(Owner(s), s.shared) && Next(s, step).Some? && Obedient(s, step)
    ensures Disciplined(Owner(Next(s, step).value), Next(s, step).value.shared)
  {
    hide Orderly, OwnerStep, AdvanceThread;
    InvNext(s, step);
    match step
    case Enter(i, call) =>
    case Move(i) => OwnerStaysDisciplined(s.controllers[i], s.shared);
    case Advance(j) => ThreadStaysDisciplined(Owner(s), s.shared, j);
  }

  lemma {:induction false} DisciplineRun(s: State, steps: seq<Step>)
    requires Inv(s) && Disciplined(Owner(s), s.shared) && ObedientRun(s, steps) && Run(s, steps).Some?
    ensures var s' := Run(s, steps).value; Inv(s') && Disciplined(Owner(s'), s'.shared)
    decreases |steps|
  {
    hide Next, Inv, Disciplined, Obedient;
    if steps != [] {
      InvNext(s, steps[0]);
      DisciplineStays(s, steps[0]);
      DisciplineRun(Next(s, steps[0]).value, steps[1..]);
    }
  }

  /** The body is running, and no stop or kill is under way. */
  ghost predicate Running(c: Controller, m: Shared) {
    && Disciplined(c, m) && (c == Idle || InStart(c))
    && Live(c, m).Some? && BodyIsOn(m, m.threads[Live(c, m).value])
  }

  lemma RunningStays(s: State, step: Step)
    requires Inv(s) && Running(Owner(s), s.shared) && Next(s, step).Some? && Obedient(s, step)
    requires step.Enter? ==> step.call == Start
    ensures Running(Owner(Next(s, step).value), Next(s, step).value.shared)
  {
    hide Orderly;
    InvNext(s, step);
    DisciplineStays(s, step);
    match step
    case Enter(i, call) =>
    case Move(i) =>
    case Advance(j) => ThreadStepKeepsOrder(Owner(s), s.shared, j);
  }

  lemma {:induction false} RunningRun(s: State, steps: seq<Step>)
    requires Inv(s) && Running(Owner(s), s.shared) && ObedientRun(s, steps) && Run(s, steps).Some?
    requires forall step :: step in steps && step.Enter? ==> step.call == Start
    ensures var s' := Run(s, steps).value; Running(Owner(s'), s'.shared)
    decreases |steps|
  {
    hide Next, Inv, Running, Obedient;
    if steps != [] {
      InvNext(s, steps[0]);
      RunningStays(s, steps[0]);
      RunningRun(Next(s, steps[0]).value, steps[1..]);
    }
  }

  /** When bodies return only once told to, a body is running whenever startWorking returns, and it
      goes on running at every point of every continuation without a stop or a destructor call. */
  lemma StartIsEffective(n: nat, before: seq<Step>, after: seq<Step>, i: nat)
    requires ObedientRun(Init(n), before) && Run(Init(n), before).Some?
    requires var s := Run(Init(n), before).value; i < |s.controllers| && s.controllers[i] == Leaving(Start)
    requires ObedientRun(Run(Init(n), before).value, after) && Run(Run(Init(n), before).value, after).Some?
    requires forall step :: step in after && step.Enter? ==> step.call == Start
    ensures var s' := Run(Run(Init(n), before).value, after).value;
            s'.shared.flag == Started && exists j :: BodyRuns(s', j)
  {
    hide Run, ObedientRun, Init;
    InvInit(n);
    DisciplineInit(n);
    DisciplineRun(Init(n), before);
    var s := Run(Init(n), before).value;
    assert Owner(s) == Leaving(Start);
    RunningRun(s, after);
    var s' := Run(s, after).value;
    assert BodyRuns(s', Live(Owner(s'), s'.shared).value);
  }

  lemma DisciplineInit(n: nat)
    ensures Disciplined(Owner(Init(n)), Init(n).shared)
  {
  }

  // ----- exactly when a start takes effect

  /** The body has returned on its own and the state has not yet been told. */
  predicate ReturnedUnnoticed(m: Shared) {
    m.flag == Started && Recording in m.threads
  }

  /** A start call that changed nothing: the thread is on its way to being parked, or there. */
  ghost predicate Swallowed(c: Controller, m: Shared) {
    && Orderly(c, m) && (c == Waiting(Start) || c == Leaving(Start)) && Live(c, m).Some?
    && (var t := m.threads[Live(c, m).value];
        (t == Recording && m.flag == Started) || (t == Parked && m.flag == Stopped))
  }

  lemma SwallowedStays(s: State, i: nat, step: Step)
    requires Inv(s) && s.holder == Some(i) && i < |s.controllers| && Swallowed(Owner(s), s.shared)
    requires Next(s, step).Some? && Owner(Next(s, step).value) != Idle
    ensures Next(s, step).value.holder == Some(i) && Swallowed(Owner(Next(s, step).value), Next(s, step).value.shared)
  {
    hide Orderly;
    InvNext(s, step);
    match step
    case Enter(_, _) =>
    case Move(k) => OwnerStepKeepsOrder(Owner(s), s.shared);
    case Advance(j) => ThreadStepKeepsOrder(Owner(s), s.shared, j);
  }

  /** Once idle, controller i stays idle without a call of its own. */
  lemma {:induction false} IdleStays(s: State, i: nat, steps: seq<Step>)
    requires Inv(s) && i < |s.controllers| && s.controllers[i] == Idle && Run(s, steps).Some?
    requires forall call :: Enter(i, call) !in steps
    ensures i < |Run(s, steps).value.controllers| && Run(s, steps).value.controllers[i] == Idle
    decreases |steps|
  {
    hide Orderly;
    if steps != [] {
      assert steps[0] in steps;
      InvNext(s, steps[0]);
      IdleStays(Next(s, steps[0]).value, i, steps[1..]);
    }
  }

  lemma {:induction false} SwallowedRun(s: State, i: nat, steps: seq<Step>)
    requires Inv(s) && s.holder == Some(i) && i < |s.controllers| && Swallowed(Owner(s), s.shared)
    requires Run(s, steps).Some? && (forall call :: Enter(i, call) !in steps)
    requires i < |Run(s, steps).value.controllers| && Run(s, steps).value.controllers[i] == Leaving(Start)
    ensures var s' := Run(s, steps).value; Inv(s') && Swallowed(Owner(s'), s'.shared)
    decreases |steps|
  {
    hide Orderly, Swallowed, Next;
    if steps != [] {
      var s1 := Next(s, steps[0]).value;
      InvNext(s, steps[0]);
      if Owner(s1) == Idle {
        OwnerGoneMeansIdle(s, i, steps[0]);
        IdleStays(s1, i, steps[1..]);
      } else {
        SwallowedStays(s, i, steps[0]);
        SwallowedRun(s1, i, steps[1..]);
      }
    }
  }

  lemma OwnerGoneMeansIdle(s: State, i: nat, step: Step)
    requires Inv(s) && s.holder == Some(i) && i < |s.controllers| && Next(s, step).Some?
    requires Owner(Next(s, step).value) == Idle
    ensures i < |Next(s, step).value.controllers| && Next(s, step).value.controllers[i] == Idle
  {
    InvNext(s, step);
  }

  /** For every reachable state in which controller i is inside startWorking, and every continuation
      with bodies that return only when told to: when the call is about to return a body is running
      exactly if, when the call touched the state, no body had returned unnoticed. */
  lemma StartIff(n: nat, before: seq<Step>, after: seq<Step>, i: nat)
    requires Run(Init(n), before).Some?
    requires var s := Run(Init(n), before).value; i < |s.controllers| && s.controllers[i] == Entered(Start)
    requires var s1 := Next(Run(Init(n), before).value, Move(i)).value;
             && ObedientRun(s1, after) && (forall call :: Enter(i, call) !in after) && Run(s1, after).Some?
             && i < |Run(s1, after).value.controllers| && Run(s1, after).value.controllers[i] == Leaving(Start)
    ensures var s := Run(Init(n), before).value;
            var s' := Run(Next(s, Move(i)).value, after).value;
            (exists j :: BodyRuns(s', j)) <==> !ReturnedUnnoticed(s.shared)
  {
    hide Run, ObedientRun, Init, Orderly;
    InvInit(n);
    InvRun(Init(n), before);
    var s := Run(Init(n), before).value;
    var s1 := Next(s, Move(i)).value;
    InvNext(s, Move(i));
    FirstStepOfStart(s, i);
    if ReturnedUnnoticed(s.shared) {
      SwallowedRun(s1, i, after);
      var s' := Run(s1, after).value;
      NoBodyWhenSwallowed(s');
    } else {
      DisciplineRun(s1, after);
      var s' := Run(s1, after).value;
      assert Owner(s') == Leaving(Start);
      BodyWhenLeaving(s');
    }
  }

  /** The access to the state decides: it is swallowed, or from there on all is in order. */
  lemma FirstStepOfStart(s: State, i: nat)
    requires Inv(s) && i < |s.controllers| && s.controllers[i] == Entered(Start)
    ensures Next(s, Move(i)).Some?
    ensures var s1 := Next(s, Move(i)).value;
            && s1.holder == Some(i) && i < |s1.controllers|
            && (if ReturnedUnnoticed(s.shared) then Swallowed(Owner(s1), s1.shared)
                else Disciplined(Owner(s1), s1.shared))
  {
    var c, m := s.controllers[i], s.shared;
    assert Owner(s) == c;
    OwnerStepKeepsOrder(c, m);
    if m.work.Some? {
      assert m.threads[m.work.value] in m.threads;
    }
  }

  lemma NoBodyWhenSwallowed(s: State)
    requires Swallowed(Owner(s), s.shared)
    ensures forall j :: !BodyRuns(s, j)
  {
  }

  lemma BodyWhenLeaving(s: State)
    requires Disciplined(Owner(s), s.shared) && Owner(s) == Leaving(Start)
    ensures exists j :: BodyRuns(s, j)
  {
    assert BodyRuns(s, Live(Owner(s), s.shared).value);
  }

  // ----- two runs

  lemma {:induction false} RunConcat(s: State, a: seq<Step>, b: seq<Step>)
    requires Run(s, a).Some?
    ensures Run(s, a + b) == Run(Run(s, a).value, b)
    decreases |a|
  {
    if a == [] {
      assert a + b == b;
    } else {
      assert (a + b)[1..] == a[1..] + b;
      RunConcat(Next(s, a[0]).value, a[1..], b);
    }
  }

  /** A single controller, which owns the lock while it is inside a call. */
  function Solo(c: Controller, m: Shared): State {
    State(m, if c == Idle then None else Some(0), [c])
  }

  function SoloNext(c: Controller, m: Shared, step: Step): Option<(Controller, Shared)> {
    match step
    case Enter(i, call) => if i == 0 && c == Idle then Some((Entered(call), m)) else None
    case Move(i) => if i == 0 && c != Idle then Some(OwnerStep(c, m)) else None
    case Advance(j) =>
      if j == 0 && |m.threads| == 1 && m.threads[0] != Exited then
        var (t, f) := ThreadStep(m.threads[0], m.flag);
        Some((c, Shared(f, m.work, [t])))
      else None
  }

  lemma FirstStep(c: Controller, m: Shared, steps: seq<Step>, c': Controller, m': Shared)
    requires steps != [] && SoloNext(c, m, steps[0]) == Some((c', m'))
    ensures Run(Solo(c, m), steps) == Run(Solo(c', m'), steps[1..])
  {
    assert [c][0 := c'] == [c'];
    if steps[0].Advance? {
      assert m.threads[0 := m'.threads[0]] == m'.threads;
    }
    assert Next(Solo(c, m), steps[0]) == Some(Solo(c', m'));
  }

  lemma NothingMore(s: State, steps: seq<Step>)
    requires steps == []
    ensures Run(s, steps) == Some(s)
  {
  }

  const BODY_RUNS := Shared(Started, Some(0), [Working])

  const STARTED: seq<Step> :=
    [Enter(0, Start), Move(0), Move(0), Move(0), Advance(0), Advance(0), Move(0), Move(0)]

  /** One controller starts a worker and has returned. */
  lemma FirstStart()
    ensures Run(Init(1), STARTED) == Some(Solo(Idle, BODY_RUNS))
  {
    hide Run;
    var m1 := Shared(Starting, None, []);
    var m2 := Shared(Starting, None, [Testing]);
    var m3 := Shared(Starting, Some(0), [Testing]);
    var m4 := Shared(Starting, Some(0), [Claiming]);
    assert Init(1) == Solo(Idle, m1);
    assert [] + [Testing] == [Testing];
    FirstStep(Idle, m1, STARTED, Entered(Start), m1);
    FirstStep(Entered(Start), m1, STARTED[1..], Spawning, m1);
    FirstStep(Spawning, m1, STARTED[2..], Assigning(0), m2);
    FirstStep(Assigning(0), m2, STARTED[3..], Waiting(Start), m3);
    FirstStep(Waiting(Start), m3, STARTED[4..], Waiting(Start), m4);
    FirstStep(Waiting(Start), m4, STARTED[5..], Waiting(Start), BODY_RUNS);
    FirstStep(Waiting(Start), BODY_RUNS, STARTED[6..], Leaving(Start), BODY_RUNS);
    FirstStep(Leaving(Start), BODY_RUNS, STARTED[7..], Idle, BODY_RUNS);
    NothingMore(Solo(Idle, BODY_RUNS), STARTED[8..]);
  }

  const KILLED: seq<Step> := [Enter(0, Destroy), Move(0), Advance(0), Advance(0)]

  /** The worker can overwrite Killing with Stopped while the destructor waits, before it restores it. */
  lemma KillIsBrieflyOverwritten()
    ensures var r := Run(Init(1), STARTED + KILLED);
            && r.Some? && r.value.controllers == [Waiting(Destroy)]
            && r.value.shared == Shared(Stopped, Some(0), [Restoring(Killing)])
  {
    hide Run;
    FirstStart();
    RunConcat(Init(1), STARTED, KILLED);
    var m1 := Shared(Killing, Some(0), [Working]);
    var m2 := Shared(Killing, Some(0), [Recording]);
    var m3 := Shared(Stopped, Some(0), [Restoring(Killing)]);
    FirstStep(Idle, BODY_RUNS, KILLED, Entered(Destroy), BODY_RUNS);
    FirstStep(Entered(Destroy), BODY_RUNS, KILLED[1..], Waiting(Destroy), m1);
    FirstStep(Waiting(Destroy), m1, KILLED[2..], Waiting(Destroy), m2);
    FirstStep(Waiting(Destroy), m2, KILLED[3..], Waiting(Destroy), m3);
    NothingMore(Solo(Waiting(Destroy), m3), KILLED[4..]);
  }

  const LOST: seq<Step> := [Advance(0), Enter(0, Start), Move(0), Move(0), Move(0), Advance(0)]

  const PARKED := Shared(Stopped, Some(0), [Parked])

  lemma LostRun()
    ensures Run(Init(1), STARTED + LOST) == Some(Solo(Idle, PARKED))
  {
    hide Run;
    FirstStart();
    RunConcat(Init(1), STARTED, LOST);
    var m := Shared(Started, Some(0), [Recording]);
    FirstStep(Idle, BODY_RUNS, LOST, Idle, m);
    FirstStep(Idle, m, LOST[1..], Entered(Start), m);
    FirstStep(Entered(Start), m, LOST[2..], Waiting(Start), m);
    FirstStep(Waiting(Start), m, LOST[3..], Leaving(Start), m);
    FirstStep(Leaving(Start), m, LOST[4..], Idle, m);
    FirstStep(Idle, m, LOST[5..], Idle, PARKED);
    NothingMore(Solo(Idle, PARKED), LOST[6..]);
  }

  /** A body that returns on its own can swallow a start: startWorking finds the old Started, changes
      nothing and returns, and no body runs until it is called once more. */
  lemma StartCanBeLost(after: seq<Step>)
    requires forall step :: step in after && step.Enter? ==> step.call != Start
    ensures var r := Run(Init(1), STARTED + LOST);
            && r.Some? && r.value.controllers == [Idle]
            && (Run(r.value, after).Some? ==> forall j :: !BodyRuns(Run(r.value, after).value, j))
  {
    hide Run, Next;
    LostRun();
    var s := Solo(Idle, PARKED);
    if Run(s, after).Some? {
      QuietRun(s, after);
      var s' := Run(s, after).value;
      assert forall j: nat :: BodyRuns(s', j) ==> s'.shared.threads[j] in s'.shared.threads;
    }
  }
}
