/** The wakeup protocol of libmultipath/log_pthread.c as a state machine: any number of
    log_safe callers, the log thread, and a caller of log_thread_stop.  One action is one
    lock operation or one access to shared data; every interleaving is a run. */
module LogThread {
  import LogArea

  type Msg = LogArea.Msg

  /** Where a log_safe caller stands; `msg` is what it logs. */
  datatype Caller =
    | WantQ(msg: Msg)       // about to lock logq_lock
    | HoldQ(msg: Msg)       // about to call log_enqueue
    | Staged                // log_enqueue returned, logq_lock still held
    | WantEv                // about to lock logev_lock
    | HoldEv                // about to set log_messages_pending
    | PendingSet            // about to signal
    | Signalled             // about to unlock logev_lock

  /** Where the log thread stands. */
  datatype Thread =
    | Boot                  // about to lock logev_lock for the first time
    | BootHold              // about to set logq_running
    | BootDone              // about to unlock
    | Top                   // head of the loop, about to lock logev_lock
    | Test                  // about to test logq_running and log_messages_pending
    | Waiting               // blocked in pthread_cond_wait
    | Woken                 // signalled, about to take logev_lock again
    | Awake                 // holds logev_lock, about to clear log_messages_pending
    | Cleared(go: bool)     // logq_running read into `running`, about to unlock
    | FlushWant             // about to lock logq_lock
    | FlushHold             // about to call log_dequeue
    | FlushTaken            // log_dequeue returned a message, logq_lock still held
    | FlushEmpty            // log_dequeue found nothing, logq_lock still held
    | Printing              // about to hand la->buff to syslog
    | Exited

  datatype Stopper = Running | StopHold | StopSet | StopSignalled | Stopped

  datatype Owner = Free | ByCaller(id: nat) | ByThread | ByStopper

  datatype State = State(
    callers: map<nat, Caller>,   // the calls of log_safe in progress
    thread: Thread,
    stopper: Stopper,
    logq: Owner,                 // logq_lock
    logev: Owner,                // logev_lock
    running: bool,               // logq_running
    pending: bool,               // log_messages_pending
    queue: seq<Msg>,             // the messages of the log area
    buff: seq<Msg>,              // la->buff: the message between dequeue and syslog
    accepted: seq<Msg>,          // history of successful log_enqueue calls
    printed: seq<Msg>            // history of log_syslog calls
  )

  datatype Action =
    | Call(id: nat, msg: Msg)
    | Move(id: nat, fits: bool)  // the caller's next step; `fits` is log_enqueue's verdict
    | ThreadMove
    | SpuriousWakeup
    | StopMove

  const INIT: State :=
    State(map[], Boot, Running, Free, Free, false, false, [], [], [], [])

  predicate Enabled(s: State, a: Action) {
    match a
    case Call(id, _) => id !in s.callers
    case Move(id, fits) =>
      id in s.callers &&
      (match s.callers[id]
       case WantQ(_) => s.logq == Free
       case HoldQ(_) => s.queue == [] ==> fits   // an empty area takes any message
       case WantEv => s.logev == Free
       case _ => true)
    case ThreadMove =>
      (match s.thread
       case Boot => s.logev == Free
       case Top => s.logev == Free
       case Woken => s.logev == Free
       case FlushWant => s.logq == Free
       case Waiting => false
       case Exited => false
       case _ => true)
    case SpuriousWakeup => s.thread == Waiting
    case StopMove =>
      (match s.stopper
       case Running => s.logev == Free
       case Stopped => false
       case _ => true)
  }

  function Wake(t: Thread): Thread {
    if t == Waiting then Woken else t
  }

  function CallerStep(s: State, id: nat, fits: bool): State
    requires id in s.callers
  {
    match s.callers[id]
    case WantQ(m) => s.(logq := ByCaller(id), callers := s.callers[id := HoldQ(m)])
    case HoldQ(m) =>
      var t := s.(callers := s.callers[id := Caller.Staged]);
      if fits then t.(queue := s.queue + [m], accepted := s.accepted + [m]) else t
    case Staged => s.(logq := Free, callers := s.callers[id := WantEv])
    case WantEv => s.(logev := ByCaller(id), callers := s.callers[id := HoldEv])
    case HoldEv => s.(pending := true, callers := s.callers[id := PendingSet])
    case PendingSet => s.(thread := Wake(s.thread), callers := s.callers[id := Signalled])
    case Signalled => s.(logev := Free, callers := s.callers - {id})
  }

  function ThreadStep(s: State): State {
    match s.thread
    case Boot => s.(logev := ByThread, thread := BootHold)
    case BootHold => s.(running := true, thread := BootDone)
    case BootDone => s.(logev := Free, thread := Top)
    case Top => s.(logev := ByThread, thread := Test)
    case Test =>
      if s.running && !s.pending then s.(logev := Free, thread := Waiting)
      else s.(thread := Awake)
    case Waiting => s
    case Woken => s.(logev := ByThread, thread := Awake)
    case Awake => s.(pending := false, thread := Cleared(s.running))
    case Cleared(go) => s.(logev := Free, thread := if go then FlushWant else Exited)
    case FlushWant => s.(logq := ByThread, thread := FlushHold)
    case FlushHold =>
      if s.queue == [] then s.(thread := FlushEmpty)
      else s.(queue := s.queue[1..], buff := [s.queue[0]], thread := FlushTaken)
    case FlushTaken => s.(logq := Free, thread := Printing)
    case FlushEmpty => s.(logq := Free, thread := Top)
    case Printing => s.(printed := s.printed + s.buff, buff := [], thread := FlushWant)
    case Exited => s
  }

  function StopStep(s: State): State {
    match s.stopper
    case Running => s.(logev := ByStopper, stopper := StopHold)
    case StopHold => s.(running := false, stopper := StopSet)
    case StopSet => s.(thread := Wake(s.thread), stopper := StopSignalled)
    case StopSignalled => s.(logev := Free, stopper := Stopped)
    case Stopped => s
  }

  function Next(s: State, a: Action): State
    requires Enabled(s, a)
  {
    match a
    case Call(id, m) => s.(callers := s.callers[id := WantQ(m)])
    case Move(id, fits) => CallerStep(s, id, fits)
    case ThreadMove => ThreadStep(s)
    case SpuriousWakeup => s.(thread := Woken)
    case StopMove => StopStep(s)
  }

  /** `run` is an interleaving that leads from the initial state to `s`. */
  ghost predicate Leads(run: seq<Action>, s: State)
  {
    if run == [] then s == INIT else
      var n := |run| - 1;
      exists prev :: Leads(run[..n], prev) && Enabled(prev, run[n]) && s == Next(prev, run[n])
  }

  ghost predicate Reachable(s: State) {
    exists run :: Leads(run, s)
  }

  // ------------------------------------------------------------------ the invariant

  predicate CallerHasQ(c: Caller) { c.HoldQ? || c == Caller.Staged }
  predicate CallerHasEv(c: Caller) { c == HoldEv || c == PendingSet || c == Signalled }
  predicate ThreadHasQ(t: Thread) { t == FlushHold || t == FlushTaken || t == FlushEmpty }
  predicate ThreadHasEv(t: Thread) { t == BootHold || t == BootDone || t == Test || t == Awake || t.Cleared? }
  predicate StopperHasEv(p: Stopper) { p == StopHold || p == StopSet || p == StopSignalled }

  predicate OwnedBy(s: State, id: nat)
    requires id in s.callers
  {
    && (CallerHasQ(s.callers[id]) <==> s.logq == ByCaller(id))
    && (CallerHasEv(s.callers[id]) <==> s.logev == ByCaller(id))
  }

  ghost predicate CallerLocks(s: State) {
    && (forall id :: id in s.callers ==> OwnedBy(s, id))
    && (s.logq.ByCaller? ==> s.logq.id in s.callers)
    && (s.logev.ByCaller? ==> s.logev.id in s.callers)
  }

  predicate ThreadLocks(s: State) {
    && (ThreadHasQ(s.thread) <==> s.logq == ByThread)
    && (ThreadHasEv(s.thread) <==> s.logev == ByThread)
    && (StopperHasEv(s.stopper) <==> s.logev == ByStopper)
    && s.logq != ByStopper
  }

  /** Each lock is held by exactly the thread whose program counter is inside its section. */
  ghost predicate Locks(s: State) {
    CallerLocks(s) && ThreadLocks(s)
  }

  /** The caller has left log_enqueue and has not yet set log_messages_pending. */
  predicate Announcing(c: Caller) { c == Caller.Staged || c == WantEv || c == HoldEv }

  /** The log thread is committed to dequeue until it finds the area empty, or is leaving. */
  predicate Draining(t: Thread) {
    t.Cleared? || t == FlushWant || t == FlushHold || t == FlushTaken || t == Printing || t == Exited
  }

  /** A queued message always has somebody in charge of it. */
  ghost predicate Covered(s: State) {
    s.queue != [] && !Draining(s.thread) ==>
      s.pending || exists id :: id in s.callers && Announcing(s.callers[id])
  }

  /** A pending flag that the waiting thread has not seen is still to be signalled. */
  ghost predicate Announced(s: State) {
    s.thread == Waiting && s.pending ==>
      s.logev.ByCaller? && s.logev.id in s.callers && s.callers[s.logev.id] == PendingSet
  }

  /** Nothing is lost, duplicated or reordered between log_enqueue and syslog. */
  ghost predicate Conserved(s: State) {
    && s.accepted == s.printed + s.buff + s.queue
    && (s.buff != [] <==> s.thread == FlushTaken || s.thread == Printing)
    && |s.buff| <= 1
    && (s.thread == FlushEmpty ==> s.queue == [])
  }

  /** The log thread neither sees logq_running cleared nor ends before a stop is requested. */
  predicate StopAsked(s: State) {
    && (s.thread == Exited || s.thread == Cleared(false) ==> s.stopper != Running)
    && (!s.running && s.thread != Boot && s.thread != BootHold ==> s.stopper != Running)
  }

  ghost predicate Inv(s: State) {
    Locks(s) && Covered(s) && Announced(s) && Conserved(s) && StopAsked(s)
  }

  lemma StepKeepsStopAsked(s: State, a: Action)
    requires StopAsked(s) && Enabled(s, a)
    ensures StopAsked(Next(s, a))
  {
    if a.Move? {
      CallerLeavesStop(s, a.id, a.fits);
    }
    hide CallerStep;
  }

  lemma CallerLeavesStop(s: State, id: nat, fits: bool)
    requires id in s.callers
    ensures var s' := CallerStep(s, id, fits);
            s'.stopper == s.stopper && s'.running == s.running && (s'.thread == s.thread || s'.thread == Woken)
  {
  }

  lemma CallerKeepsOwned(s: State, id: nat, fits: bool, other: nat)
    requires CallerLocks(s) && Enabled(s, Move(id, fits))
    requires other in CallerStep(s, id, fits).callers
    ensures OwnedBy(CallerStep(s, id, fits), other)
  {
    assert OwnedBy(s, id);
    assert OwnedBy(s, other);
  }

  lemma CallerKeepsThreadLocks(s: State, id: nat, fits: bool)
    requires CallerLocks(s) && ThreadLocks(s) && Enabled(s, Move(id, fits))
    ensures ThreadLocks(CallerStep(s, id, fits))
    ensures CallerStep(s, id, fits).logq.ByCaller? ==> CallerStep(s, id, fits).logq.id in CallerStep(s, id, fits).callers
    ensures CallerStep(s, id, fits).logev.ByCaller? ==> CallerStep(s, id, fits).logev.id in CallerStep(s, id, fits).callers
  {
    assert OwnedBy(s, id);
  }

  lemma CallerKeepsLocks(s: State, id: nat, fits: bool)
    requires Locks(s) && Enabled(s, Move(id, fits))
    ensures Locks(CallerStep(s, id, fits))
  {
    assert id in s.callers;
    CallerKeepsThreadLocks(s, id, fits);
    hide OwnedBy, ThreadLocks, CallerStep, Enabled;
    forall other | other in CallerStep(s, id, fits).callers ensures OwnedBy(CallerStep(s, id, fits), other) {
      CallerKeepsOwned(s, id, fits, other);
    }
  }

  lemma CallerKeepsCovered(s: State, id: nat, fits: bool)
    requires Covered(s) && Enabled(s, Move(id, fits))
    ensures Covered(CallerStep(s, id, fits))
  {
    var s' := CallerStep(s, id, fits);
    if s'.queue != [] && !Draining(s'.thread) && !s'.pending {
      if s.callers[id].HoldQ? {
        assert id in s'.callers && Announcing(s'.callers[id]);
      } else {
        var w :| w in s.callers && Announcing(s.callers[w]);
        assert w in s'.callers && Announcing(s'.callers[w]);
      }
    }
  }

  lemma CallerKeepsRest(s: State, id: nat, fits: bool)
    requires Locks(s) && Announced(s) && Conserved(s) && Enabled(s, Move(id, fits))
    ensures Announced(CallerStep(s, id, fits)) && Conserved(CallerStep(s, id, fits))
  {
    if s.callers[id].HoldQ? {
      assert s.printed + s.buff + s.queue + [s.callers[id].msg] == s.printed + s.buff + (s.queue + [s.callers[id].msg]);
    }
  }

  lemma CallerKeepsInv(s: State, id: nat, fits: bool)
    requires Inv(s) && Enabled(s, Move(id, fits))
    ensures Inv(CallerStep(s, id, fits))
  {
    hide Locks, Covered, Announced, Conserved, StopAsked;
    StepKeepsStopAsked(s, Move(id, fits));
    CallerKeepsLocks(s, id, fits);
    CallerKeepsCovered(s, id, fits);
    CallerKeepsRest(s, id, fits);
  }

  /** The log thread moves a lock only between itself and nobody, and only when it may. */
  lemma ThreadMovesLocks(s: State)
    requires ThreadLocks(s) && Enabled(s, ThreadMove)
    ensures var s' := ThreadStep(s);
            && s'.callers == s.callers
            && (s'.logq == s.logq || !(s.logq.ByCaller? || s'.logq.ByCaller?))
            && (s'.logev == s.logev || !(s.logev.ByCaller? || s'.logev.ByCaller?))
  {
  }

  lemma ThreadKeepsOwned(s: State, id: nat)
    requires CallerLocks(s) && ThreadLocks(s) && Enabled(s, ThreadMove) && id in s.callers && id in ThreadStep(s).callers
    ensures OwnedBy(ThreadStep(s), id)
  {
    hide ThreadStep, Enabled, ThreadLocks;
    ThreadMovesLocks(s);
    assert OwnedBy(s, id);
  }

  lemma ThreadKeepsThreadLocks(s: State)
    requires ThreadLocks(s) && Enabled(s, ThreadMove)
    ensures ThreadLocks(ThreadStep(s))
  {
  }

  lemma ThreadKeepsLocks(s: State)
    requires Locks(s) && Enabled(s, ThreadMove)
    ensures Locks(ThreadStep(s))
  {
    hide OwnedBy, ThreadLocks, ThreadStep, Enabled;
    ThreadKeepsThreadLocks(s);
    ThreadMovesLocks(s);
    forall id | id in s.callers ensures OwnedBy(ThreadStep(s), id) {
      ThreadKeepsOwned(s, id);
    }
  }

  lemma ThreadKeepsCovered(s: State)
    requires Covered(s) && Announced(s) && Conserved(s) && Enabled(s, ThreadMove)
    ensures Covered(ThreadStep(s)) && Announced(ThreadStep(s))
  {
  }

  lemma Regrouped<T>(a: seq<T>, b: seq<T>, c: seq<T>)
    ensures (a + b) + c == a + (b + c) && a + [] == a
  {
  }

  lemma ThreadKeepsConserved(s: State)
    requires Conserved(s) && Enabled(s, ThreadMove)
    ensures Conserved(ThreadStep(s))
  {
    var s' := ThreadStep(s);
    if s.thread == FlushHold && s.queue != [] {
      Regrouped(s.printed, [s.queue[0]], s.queue[1..]);
      assert s.queue == [s.queue[0]] + s.queue[1..];
    }
    Regrouped(s.printed, s.buff, s.queue);
    assert s'.printed + s'.buff + s'.queue == s.printed + s.buff + s.queue;
  }

  lemma ThreadKeepsInv(s: State)
    requires Inv(s) && Enabled(s, ThreadMove)
    ensures Inv(ThreadStep(s))
  {
    hide Locks, Covered, Announced, Conserved, StopAsked;
    StepKeepsStopAsked(s, ThreadMove);
    ThreadKeepsLocks(s);
    ThreadKeepsCovered(s);
    ThreadKeepsConserved(s);
  }

  lemma StepKeepsInv(s: State, a: Action)
    requires Inv(s) && Enabled(s, a)
    ensures Inv(Next(s, a))
  {
    StepKeepsStopAsked(s, a);
    match a
    case Call(id, m) => CallKeepsInv(s, id, m);
    case Move(id, fits) => CallerKeepsInv(s, id, fits);
    case ThreadMove => ThreadKeepsInv(s);
    case SpuriousWakeup => hide StopAsked; WakeupKeepsLocks(s);
    case StopMove => hide StopAsked; StopKeepsLocks(s);
  }

  lemma CallKeepsInv(s: State, id: nat, m: Msg)
    requires Inv(s) && id !in s.callers
    ensures Inv(s.(callers := s.callers[id := WantQ(m)]))
  {
    var s' := s.(callers := s.callers[id := WantQ(m)]);
    assert forall c :: c in s.callers && OwnedBy(s, c) ==> OwnedBy(s', c);
    if s.queue != [] && !Draining(s.thread) && !s.pending {
      var w :| w in s.callers && Announcing(s.callers[w]);
      assert w in s'.callers && Announcing(s'.callers[w]);
    }
  }

  lemma WakeupKeepsLocks(s: State)
    requires Locks(s) && s.thread == Waiting
    ensures Locks(s.(thread := Woken))
  {
    assert forall id :: id in s.callers && OwnedBy(s, id) ==> OwnedBy(s.(thread := Woken), id);
  }

  lemma StopKeepsLocks(s: State)
    requires Locks(s) && Enabled(s, StopMove)
    ensures Locks(StopStep(s))
  {
    forall id | id in s.callers ensures OwnedBy(StopStep(s), id) {
      assert OwnedBy(s, id);
    }
  }

  lemma {:induction false} RunKeepsInv(run: seq<Action>, s: State)
    requires Leads(run, s)
    ensures Inv(s)
  {
    if run != [] {
      var n := |run| - 1;
      var prev :| Leads(run[..n], prev) && Enabled(prev, run[n]) && s == Next(prev, run[n]);
      RunKeepsInv(run[..n], prev);
      StepKeepsInv(prev, run[n]);
    }
  }

  // ------------------------------------------------------------------ main results

  /** The caller has enqueued and has not yet signalled. */
  predicate BeforeSignal(c: Caller) { Announcing(c) || c == PendingSet }

  /** No lost wakeup: when the log thread is blocked in pthread_cond_wait while a message
      is queued, some caller is between its log_enqueue and its pthread_cond_signal. */
  lemma NoLostWakeup(s: State)
    requires Reachable(s) && s.thread == Waiting && s.queue != []
    ensures exists id :: id in s.callers && BeforeSignal(s.callers[id])
  {
    var run :| Leads(run, s);
    RunKeepsInv(run, s);
    if s.pending {
      assert s.logev.id in s.callers && BeforeSignal(s.callers[s.logev.id]);
    } else {
      var id :| id in s.callers && Announcing(s.callers[id]);
      assert BeforeSignal(s.callers[id]);
    }
  }

  /** Every accepted message is printed, in la->buff or queued, once and in order. */
  lemma NothingLost(s: State)
    requires Reachable(s)
    ensures s.accepted == s.printed + s.buff + s.queue && |s.buff| <= 1
  {
    var run :| Leads(run, s);
    RunKeepsInv(run, s);
  }

  // ------------------------------------------------------------------ delivery

  /** Steps of calls already begun: no new call, no spurious wakeup, no new stop request. */
  predicate Internal(s: State, a: Action) {
    a.Move? || a.ThreadMove? || (a.StopMove? && s.stopper != Running)
  }

  /** Steps a caller has left. */
  function Steps(c: Caller): nat {
    match c
    case WantQ(_) => 7
    case HoldQ(_) => 6
    case Staged => 5
    case WantEv => 4
    case HoldEv => 3
    case PendingSet => 2
    case Signalled => 1
  }

  ghost function AllSteps(m: map<nat, Caller>): nat {
    if m == map[] then 0 else
      var id :| id in m;
      Steps(m[id]) + AllSteps(m - {id})
  }

  lemma {:induction false} AllStepsSplit(m: map<nat, Caller>, id: nat)
    requires id in m
    ensures AllSteps(m) == Steps(m[id]) + AllSteps(m - {id})
    decreases |m|
  {
    var pick :| pick in m && AllSteps(m) == Steps(m[pick]) + AllSteps(m - {pick});
    if pick != id {
      AllStepsSplit(m - {pick}, id);
      AllStepsSplit(m - {id}, pick);
      assert m - {pick} - {id} == m - {id} - {pick};
    }
  }

  lemma AllStepsUpdate(m: map<nat, Caller>, id: nat, c: Caller)
    requires id in m
    ensures AllSteps(m[id := c]) == AllSteps(m) - Steps(m[id]) + Steps(c)
    ensures AllSteps(m - {id}) == AllSteps(m) - Steps(m[id])
  {
    AllStepsSplit(m, id);
    AllStepsSplit(m[id := c], id);
    assert m[id := c] - {id} == m - {id};
  }

  function StopperSteps(p: Stopper): nat {
    match p
    case Running => 4
    case StopHold => 3
    case StopSet => 2
    case StopSignalled => 1
    case Stopped => 0
  }

  /** What the log thread can still do when nobody else moves. */
  function ThreadSteps(s: State): nat {
    match s.thread
    case Woken => if s.running && !s.pending then 82 else 22
    case Awake => if s.running && !s.pending then 81 else 21
    case Cleared(go) => if go then 69 else 1
    case FlushTaken => 68
    case Printing => 67
    case FlushWant => 66
    case FlushHold => 65
    case FlushEmpty => 64
    case Boot => 45
    case BootHold => 44
    case BootDone => 43
    case Top => 42
    case Test => 41
    case Waiting => 0
    case Exited => 0
  }

  ghost function Potential(s: State): nat {
    300 * (AllSteps(s.callers) + StopperSteps(s.stopper))
    + (if s.pending then 100 else 0) + ThreadSteps(s) + 4 * |s.queue|
  }

  lemma InternalStepCosts(s: State, a: Action)
    requires Enabled(s, a) && Internal(s, a)
    ensures Potential(Next(s, a)) < Potential(s)
  {
    if a.Move? {
      CallerStepCosts(s, a.id, a.fits);
    }
  }

  lemma CallerStepCosts(s: State, id: nat, fits: bool)
    requires id in s.callers
    ensures Potential(CallerStep(s, id, fits)) < Potential(s)
  {
    CallerStepsOnce(s, id, fits);
    var s' := CallerStep(s, id, fits);
    assert ThreadSteps(s') <= ThreadSteps(s) + 82 && |s'.queue| <= |s.queue| + 1;
    hide CallerStep, ThreadSteps, AllSteps;
  }

  lemma CallerStepsOnce(s: State, id: nat, fits: bool)
    requires id in s.callers
    ensures AllSteps(CallerStep(s, id, fits).callers) == AllSteps(s.callers) - 1
    ensures CallerStep(s, id, fits).stopper == s.stopper
  {
    hide AllSteps;
    var c := if s.callers[id] == Signalled then Signalled else CallerNext(s.callers[id]);
    CallerMovesOn(s, id, fits);
    hide CallerStep;
    AllStepsUpdate(s.callers, id, c);
  }

  /** Where a caller stands after its step, when it is not through. */
  function CallerNext(c: Caller): Caller
    requires c != Signalled
  {
    match c
    case WantQ(m) => HoldQ(m)
    case HoldQ(_) => Caller.Staged
    case Staged => WantEv
    case WantEv => HoldEv
    case HoldEv => PendingSet
    case PendingSet => Signalled
  }

  lemma CallerMovesOn(s: State, id: nat, fits: bool)
    requires id in s.callers
    ensures CallerStep(s, id, fits).stopper == s.stopper
    ensures CallerStep(s, id, fits).callers ==
            if s.callers[id] == Signalled then s.callers - {id} else s.callers[id := CallerNext(s.callers[id])]
  {
  }

  /** `run` consists of internal steps that lead from `s` to `t`. */
  ghost predicate Finishes(s: State, run: seq<Action>, t: State)
    decreases |run|
  {
    if run == [] then s == t else
      Enabled(s, run[0]) && Internal(s, run[0]) && Finishes(Next(s, run[0]), run[1..], t)
  }

  lemma {:induction false} FinishingIsBounded(s: State, run: seq<Action>, t: State)
    requires Inv(s) && Finishes(s, run, t)
    ensures |run| + Potential(t) <= Potential(s) && Inv(t)
    decreases |run|
  {
    if run != [] {
      StepKeepsInv(s, run[0]);
      InternalStepCosts(s, run[0]);
      FinishingIsBounded(Next(s, run[0]), run[1..], t);
    }
  }

  /** No step of a call already begun is possible. */
  ghost predicate Stuck(s: State) {
    forall a :: Internal(s, a) ==> !Enabled(s, a)
  }

  lemma HolderCanMove(s: State, id: nat)
    requires Locks(s) && (s.logq == ByCaller(id) || s.logev == ByCaller(id))
    ensures Enabled(s, Move(id, true))
  {
    assert OwnedBy(s, id);
  }

  lemma StuckHoldsNoLock(s: State)
    requires Locks(s) && Stuck(s)
    ensures s.logq == Free && s.logev == Free
  {
    assert Internal(s, ThreadMove) && !Enabled(s, ThreadMove);
    assert s.stopper != Running ==> Internal(s, StopMove);
    if s.logq.ByCaller? {
      HolderCanMove(s, s.logq.id);
      assert false;
    }
    if s.logev.ByCaller? {
      HolderCanMove(s, s.logev.id);
      assert false;
    }
  }

  /** There is no deadlock: only a finished system is stuck, and unless log_thread_stop was
      called the log thread is idle and has nothing left to print. */
  lemma StuckIsFinished(s: State)
    requires Inv(s) && Stuck(s)
    ensures s.callers == map[] && (s.thread == Waiting || s.thread == Exited)
    ensures s.thread == Waiting ==> s.queue == [] && s.buff == []
    ensures s.thread == Exited ==> s.stopper == Stopped
  {
    StuckHoldsNoLock(s);
    assert Internal(s, ThreadMove) && !Enabled(s, ThreadMove);
    forall id ensures id !in s.callers {
      assert Internal(s, Move(id, true)) && !Enabled(s, Move(id, true));
    }
  }

  /** Delivery: once no new call begins, every schedule ends after a bounded number of
      steps, and when it can go no further everything that log_enqueue accepted has been
      printed, in order; only a complete log_thread_stop can have ended the log thread before. */
  lemma Delivery(s: State, run: seq<Action>, t: State)
    requires Reachable(s) && Finishes(s, run, t)
    ensures |run| <= Potential(s)
    ensures Stuck(t) ==> t.callers == map[] && (t.thread == Waiting || (t.thread == Exited && t.stopper == Stopped))
    ensures Stuck(t) && t.thread == Waiting ==> t.printed == t.accepted
    ensures Stuck(t) && t.stopper == Running ==> t.thread == Waiting && t.printed == t.accepted
  {
    var before :| Leads(before, s);
    RunKeepsInv(before, s);
    FinishingIsBounded(s, run, t);
    if Stuck(t) {
      StuckIsFinished(t);
    }
  }
}
