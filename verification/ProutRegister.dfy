/** Registering a reservation key on every path of a map: mpath_prout_reg of
    libmpathpersist/mpath_persist.c as a state machine. The calling thread creates one thread a
    path, joins them, and takes the registrations back if one of them met a conflict; the
    commands of the threads (section 6.12 of SPC-3) may come at any time in between. */
module ProutRegister {

  import opened Wrappers

  const SKIP := -1
  const SUCCESS := 0
  const CONFLICT := 11
  const THREAD_ERROR := 14

  /** REGISTER, and REGISTER AND IGNORE EXISTING KEY. */
  datatype Action = Register | RegisterIgnore

  datatype Path = Path(active: bool, host: int)

  /** The call: its paths in order, its flags, the existing key and the service action key. */
  datatype Call = Call(paths: seq<Path>, allTgPt: bool, action: Action, key: nat, saKey: nat)

  datatype Run = CreateFailed | Running | Done

  /** One entry of the thread array: the path it is for, the host entry beside it, the status the
      thread left, the one it left before any rollback, and the registration its commands left. */
  datatype Slot = Slot(path: nat, host: int, run: Run, status: int, first: int, reg: nat)

  datatype Phase = Creating(pi: nat) | Joining(i: nat) | Undoing(u: nat) | JoiningUndo(j: nat) | Finished

  /** `regs`: the key that the nexus of each path is registered with, 0 for none.
      `clean`: every thread of the rollback was created and its command succeeded. */
  datatype State = State(phase: Phase, slots: seq<Slot>, regs: seq<nat>, key: nat, saKey: nat, rollback: bool, status: int, clean: bool)

  function Init(c: Call): State {
    State(Creating(0), [], seq(|c.paths|, _ => 0), c.key, c.saKey, false, SUCCESS, true)
  }

  // ------------------------------------------------------------------ one command

  /** What a target does with a registration of a nexus: the new registration and the status. A
      `fault` other than 0 is a command that fails for a reason of its own. */
  function Command(action: Action, reg: nat, key: nat, saKey: nat, fault: int): (nat, int) {
    if fault != SUCCESS then (reg, fault)
    else if action == RegisterIgnore || reg == key then (saKey, SUCCESS)
    else (reg, CONFLICT)
  }

  /** The paths whose nexus a command of the thread registers: its own, and for all target ports
      every path of its host. */
  predicate Reaches(c: Call, x: Slot, p: nat) {
    p == x.path || (c.allTgPt && x.host != -1 && p < |c.paths| && c.paths[p].host == x.host)
  }

  function Spread(c: Call, regs: seq<nat>, x: Slot, reg: nat): (r: seq<nat>)
    ensures |r| == |regs|
  {
    seq(|regs|, p requires 0 <= p < |regs| => if Reaches(c, x, p) then reg else regs[p])
  }

  function RegAt(regs: seq<nat>, p: nat): nat {
    if p < |regs| then regs[p] else 0
  }

  // ------------------------------------------------------------------ steps

  datatype Move = Main(created: bool) | Thread(t: nat, fault: int)

  predicate HostTaken(slots: seq<Slot>, host: int) {
    exists k :: 0 <= k < |slots| && slots[k].host == host
  }

  /** A path that gets no thread: not up, or its host is done for all target ports. */
  predicate Passed(c: Call, slots: seq<Slot>, p: Path) {
    !p.active || (c.allTgPt && p.host != -1 && HostTaken(slots, p.host))
  }

  predicate Enabled(c: Call, s: State, m: Move) {
    match m
    case Thread(t, fault) => t < |s.slots| && s.slots[t].run == Running && fault != THREAD_ERROR
    case Main(_) =>
      match s.phase
      case Creating(pi) => pi <= |c.paths|
      case Joining(i) => i <= |s.slots| && (i < |s.slots| ==> s.slots[i].run != Running)
      case Undoing(u) => u <= |s.slots|
      case JoiningUndo(j) =>
        j <= |s.slots| &&
        (j < |s.slots| ==> s.slots[j].status == SKIP || s.slots[j].status == THREAD_ERROR || s.slots[j].run != Running)
      case Finished => false
  }

  predicate FirstRound(p: Phase) { p.Creating? || p.Joining? }

  function NewSlot(pi: nat, p: Path, created: bool): Slot {
    if created then Slot(pi, p.host, Running, SKIP, SKIP, 0)
    else Slot(pi, -1, CreateFailed, THREAD_ERROR, THREAD_ERROR, 0)
  }

  /** The joined thread's status, folded into the verdict. */
  function Fold(rollback: bool, status: int, st: int): (bool, int) {
    var rb := rollback || st == CONFLICT;
    var s1 := if !rollback && st == CONFLICT then CONFLICT else status;
    (rb, if !rb && s1 == SUCCESS then st else s1)
  }

  function UndoSlot(x: Slot, created: bool): Slot {
    if x.status == SUCCESS then (if created then x.(run := Running) else x.(run := CreateFailed, status := THREAD_ERROR))
    else x.(status := SKIP)
  }

  function MainStep(c: Call, s: State, created: bool): State
    requires Enabled(c, s, Main(created))
  {
    match s.phase
    case Creating(pi) =>
      if pi == |c.paths| then s.(phase := Joining(0))
      else if Passed(c, s.slots, c.paths[pi]) then s.(phase := Creating(pi + 1))
      else s.(phase := Creating(pi + 1), slots := s.slots + [NewSlot(pi, c.paths[pi], created)])
    case Joining(i) =>
      if i < |s.slots| then
        var (rb, st) := Fold(s.rollback, s.status, s.slots[i].status);
        s.(phase := Joining(i + 1), rollback := rb, status := st)
      else if s.rollback && c.action == Register && s.saKey != 0 then
        s.(phase := Undoing(0), key := s.saKey, saKey := 0)
      else s.(phase := Finished)
    case Undoing(u) =>
      if u == |s.slots| then s.(phase := JoiningUndo(0))
      else s.(phase := Undoing(u + 1), slots := s.slots[u := UndoSlot(s.slots[u], created)],
              clean := s.clean && (s.slots[u].status == SUCCESS ==> created))
    case JoiningUndo(j) =>
      if j == |s.slots| then s.(phase := Finished) else s.(phase := JoiningUndo(j + 1))
  }

  function RunSlot(c: Call, s: State, x: Slot, fault: int): Slot {
    var (reg, st) := Command(c.action, RegAt(s.regs, x.path), s.key, s.saKey, fault);
    x.(run := Done, status := st, reg := reg, first := if FirstRound(s.phase) then st else x.first)
  }

  function ThreadStep(c: Call, s: State, t: nat, fault: int): State
    requires Enabled(c, s, Thread(t, fault))
  {
    var y := RunSlot(c, s, s.slots[t], fault);
    s.(slots := s.slots[t := y],
       regs := if y.status == SUCCESS then Spread(c, s.regs, y, y.reg) else s.regs,
       clean := s.clean && (FirstRound(s.phase) || fault == SUCCESS))
  }

  function Step(c: Call, s: State, m: Move): State
    requires Enabled(c, s, m)
  {
    match m
    case Main(created) => MainStep(c, s, created)
    case Thread(t, fault) => ThreadStep(c, s, t, fault)
  }

  /** The state after a sequence of moves, if each was enabled when it came. */
  function After(c: Call, ms: seq<Move>): Option<State> {
    if ms == [] then Some(Init(c))
    else match After(c, ms[..|ms| - 1])
         case None => None
         case Some(s) => if Enabled(c, s, ms[|ms| - 1]) then Some(Step(c, s, ms[|ms| - 1])) else None
  }

  // ------------------------------------------------------------------ what holds in every state

  /** A thread of the first round. */
  predicate FirstOk(c: Call, x: Slot) {
    match x.run
    case Running => x.status == SKIP && x.first == SKIP && x.reg == 0
    case Done => x.status == x.first && x.first != THREAD_ERROR && x.reg == (if x.first == SUCCESS then c.saKey else 0)
    case CreateFailed => x.status == THREAD_ERROR && x.first == THREAD_ERROR && x.reg == 0
  }

  predicate Settled(c: Call, x: Slot) { FirstOk(c, x) && x.run != Running }

  /** A thread the rollback has dealt with, if all went well so far. */
  predicate Undone(c: Call, x: Slot) {
    if x.first == SUCCESS
    then x.status == SUCCESS && (if x.run == Running then x.reg == c.saKey else x.run == Done && x.reg == 0)
    else x.run != Running && x.status == SKIP && x.reg == 0
  }

  function Verdict(slots: seq<Slot>): (bool, int) {
    if slots == [] then (false, SUCCESS)
    else
      var (rb, st) := Verdict(slots[..|slots| - 1]);
      Fold(rb, st, slots[|slots| - 1].first)
  }

  predicate AllFirstOk(c: Call, slots: seq<Slot>) {
    forall k :: 0 <= k < |slots| ==> FirstOk(c, slots[k])
  }

  predicate SettledIn(c: Call, slots: seq<Slot>, from: nat, to: nat) {
    forall k :: from <= k < to && k < |slots| ==> Settled(c, slots[k])
  }

  predicate UndoneIn(c: Call, slots: seq<Slot>, to: nat) {
    forall k :: 0 <= k < to && k < |slots| ==> Undone(c, slots[k])
  }

  predicate QuietIn(slots: seq<Slot>, to: nat) {
    forall k :: 0 <= k < to && k < |slots| ==> slots[k].run != Running
  }

  predicate Rolls(c: Call, s: State) { s.rollback && c.action == Register && c.saKey != 0 }

  predicate Undoes(c: Call, s: State) {
    Rolls(c, s) && s.key == c.saKey && s.saKey == 0 && (s.rollback, s.status) == Verdict(s.slots)
  }

  predicate Untouched(c: Call, s: State) { s.key == c.key && s.saKey == c.saKey && s.clean }

  predicate PhaseInv(c: Call, s: State) {
    match s.phase
    case Creating(pi) =>
      pi <= |c.paths| && Untouched(c, s) && !s.rollback && s.status == SUCCESS && AllFirstOk(c, s.slots)
    case Joining(i) =>
      i <= |s.slots| && Untouched(c, s) && AllFirstOk(c, s.slots) && SettledIn(c, s.slots, 0, i) &&
      (s.rollback, s.status) == Verdict(s.slots[..i])
    case Undoing(u) =>
      u <= |s.slots| && Undoes(c, s) && SettledIn(c, s.slots, u, |s.slots|) && (s.clean ==> UndoneIn(c, s.slots, u))
    case JoiningUndo(j) =>
      j <= |s.slots| && Undoes(c, s) &&
      (s.clean ==> UndoneIn(c, s.slots, |s.slots|) && QuietIn(s.slots, j))
    case Finished =>
      (s.rollback, s.status) == Verdict(s.slots) &&
      (if Rolls(c, s) then s.clean ==> UndoneIn(c, s.slots, |s.slots|) && QuietIn(s.slots, |s.slots|)
       else SettledIn(c, s.slots, 0, |s.slots|))
  }

  /** Threads are for active paths in order; with all target ports, no host twice. */
  predicate PlacesInv(c: Call, slots: seq<Slot>, upTo: nat) {
    (forall k :: 0 <= k < |slots| ==> slots[k].path < upTo && slots[k].path < |c.paths| && c.paths[slots[k].path].active) &&
    (forall k, l :: 0 <= k < l < |slots| ==> slots[k].path < slots[l].path) &&
    (c.allTgPt ==> forall k, l :: 0 <= k < l < |slots| && slots[k].host == slots[l].host ==> slots[k].host == -1)
  }

  /** Every active path so far has a thread, or one is registering its host for it. */
  predicate CoveredInv(c: Call, slots: seq<Slot>, upTo: nat) {
    forall p :: 0 <= p < upTo && p < |c.paths| && c.paths[p].active ==>
      HasThread(slots, p) || (c.allTgPt && c.paths[p].host != -1 && HostTaken(slots, c.paths[p].host))
  }

  predicate HasThread(slots: seq<Slot>, p: nat) {
    exists k :: 0 <= k < |slots| && slots[k].path == p
  }

  function Reached(c: Call, p: Phase): nat {
    if p.Creating? then p.pi else |c.paths|
  }

  /** A thread of the first round was created. */
  predicate Started(x: Slot) { x.first != THREAD_ERROR }

  predicate Serves(c: Call, x: Slot, p: nat) { Started(x) && Reaches(c, x, p) }

  predicate HostIs(c: Call, x: Slot) {
    x.path < |c.paths| && (Started(x) ==> x.host == c.paths[x.path].host) && (x.run == Running ==> Started(x))
  }

  /** Every nexus has the registration that the one thread serving it has left, or none. */
  predicate LinkInv(c: Call, slots: seq<Slot>, regs: seq<nat>) {
    |regs| == |c.paths| &&
    (forall k :: 0 <= k < |slots| ==> HostIs(c, slots[k])) &&
    (forall k, p :: 0 <= k < |slots| && 0 <= p < |regs| && Serves(c, slots[k], p) ==> regs[p] == slots[k].reg) &&
    (forall p :: 0 <= p < |regs| && regs[p] != 0 ==> exists k :: 0 <= k < |slots| && Serves(c, slots[k], p))
  }

  predicate Inv(c: Call, s: State) {
    PhaseInv(c, s) && LinkInv(c, s.slots, s.regs) &&
    PlacesInv(c, s.slots, Reached(c, s.phase)) && CoveredInv(c, s.slots, Reached(c, s.phase))
  }

  // ------------------------------------------------------------------ steps keep it

  lemma VerdictSnoc(slots: seq<Slot>, i: nat)
    requires i < |slots|
    ensures var (rb, st) := Verdict(slots[..i]); Verdict(slots[..i + 1]) == Fold(rb, st, slots[i].first)
  {
    assert slots[..i + 1][..i] == slots[..i];
  }

  /** The verdict depends on the first statuses alone. */
  lemma {:induction false} VerdictSame(a: seq<Slot>, b: seq<Slot>)
    requires |a| == |b| && forall k :: 0 <= k < |a| ==> a[k].first == b[k].first
    ensures Verdict(a) == Verdict(b)
  {
    if a != [] {
      VerdictSame(a[..|a| - 1], b[..|b| - 1]);
    }
  }

  predicate SamePlaces(a: seq<Slot>, b: seq<Slot>) {
    |a| == |b| && forall k :: 0 <= k < |a| ==> a[k].path == b[k].path && a[k].host == b[k].host
  }

  lemma PlacesStay(c: Call, a: seq<Slot>, b: seq<Slot>, upTo: nat)
    requires SamePlaces(a, b) && PlacesInv(c, a, upTo) && CoveredInv(c, a, upTo)
    ensures PlacesInv(c, b, upTo) && CoveredInv(c, b, upTo)
  {
    forall p | 0 <= p < upTo && p < |c.paths| && c.paths[p].active
      ensures HasThread(b, p) || (c.allTgPt && c.paths[p].host != -1 && HostTaken(b, c.paths[p].host))
    {
      if HasThread(a, p) {
        var k :| 0 <= k < |a| && a[k].path == p;
        assert b[k].path == p;
      } else {
        var k :| 0 <= k < |a| && a[k].host == c.paths[p].host;
        assert b[k].host == c.paths[p].host;
      }
    }
  }

  lemma PassKeepsPlaces(c: Call, slots: seq<Slot>, pi: nat)
    requires pi < |c.paths| && PlacesInv(c, slots, pi) && CoveredInv(c, slots, pi) && Passed(c, slots, c.paths[pi])
    ensures PlacesInv(c, slots, pi + 1) && CoveredInv(c, slots, pi + 1)
  {
    hide HostTaken, HasThread;
  }

  lemma CreateKeepsPlaces(c: Call, slots: seq<Slot>, pi: nat, created: bool)
    requires pi < |c.paths| && PlacesInv(c, slots, pi) && !Passed(c, slots, c.paths[pi])
    ensures PlacesInv(c, slots + [NewSlot(pi, c.paths[pi], created)], pi + 1)
  {
    var x := NewSlot(pi, c.paths[pi], created);
    var more := slots + [x];
    assert more[|slots|] == x && forall k :: 0 <= k < |slots| ==> more[k] == slots[k];
    assert c.allTgPt && c.paths[pi].host != -1 ==> forall k :: 0 <= k < |slots| ==> slots[k].host != c.paths[pi].host;
    hide Passed, HostTaken;
  }

  lemma CreateKeepsCovered(c: Call, slots: seq<Slot>, pi: nat, created: bool)
    requires pi < |c.paths| && CoveredInv(c, slots, pi)
    ensures CoveredInv(c, slots + [NewSlot(pi, c.paths[pi], created)], pi + 1)
  {
    var x := NewSlot(pi, c.paths[pi], created);
    var more := slots + [x];
    assert more[|slots|] == x && x.path == pi && forall k :: 0 <= k < |slots| ==> more[k] == slots[k];
    hide NewSlot;
    forall p | 0 <= p < pi + 1 && c.paths[p].active
      ensures HasThread(more, p) || (c.allTgPt && c.paths[p].host != -1 && HostTaken(more, c.paths[p].host))
    {
      if p == pi {
        assert more[|slots|].path == p;
      } else if HasThread(slots, p) {
        var k :| 0 <= k < |slots| && slots[k].path == p;
        assert more[k].path == p;
      } else {
        var k :| 0 <= k < |slots| && slots[k].host == c.paths[p].host;
        assert more[k].host == c.paths[p].host;
      }
    }
  }

  /** Two threads that serve one nexus are for one path or one host. */
  lemma ServersMeet(c: Call, x: Slot, y: Slot, p: nat)
    requires HostIs(c, x) && HostIs(c, y) && Serves(c, x, p) && Serves(c, y, p)
    ensures x.path == y.path || (c.allTgPt && x.host == y.host && x.host != -1)
  {
  }

  /** No nexus is served by two threads. */
  lemma ServedOnce(c: Call, slots: seq<Slot>, upTo: nat, k: nat, l: nat, p: nat)
    requires PlacesInv(c, slots, upTo) && k < |slots| && l < |slots| && HostIs(c, slots[k]) && HostIs(c, slots[l])
    requires Serves(c, slots[k], p) && Serves(c, slots[l], p)
    ensures k == l
  {
    ServersMeet(c, slots[k], slots[l], p);
    hide HostIs, Serves;
  }

  /** A path that gets a thread was not served by another one. */
  lemma ServedIsPassed(c: Call, slots: seq<Slot>, pi: nat, created: bool, l: nat, p: nat)
    requires pi < |c.paths| && PlacesInv(c, slots, pi) && l < |slots| && HostIs(c, slots[l])
    requires Serves(c, slots[l], p) && Serves(c, NewSlot(pi, c.paths[pi], created), p)
    ensures Passed(c, slots, c.paths[pi])
  {
    ServersMeet(c, slots[l], NewSlot(pi, c.paths[pi], created), p);
    assert slots[l].path < pi;
    assert HostTaken(slots, slots[l].host);
  }

  lemma AllServedPassed(c: Call, slots: seq<Slot>, regs: seq<nat>, pi: nat, created: bool)
    requires pi < |c.paths| && LinkInv(c, slots, regs) && PlacesInv(c, slots, pi)
    ensures forall l, p :: 0 <= l < |slots| && 0 <= p && Serves(c, slots[l], p) && Serves(c, NewSlot(pi, c.paths[pi], created), p) ==>
              Passed(c, slots, c.paths[pi])
  {
    forall l, p | 0 <= l < |slots| && 0 <= p && Serves(c, slots[l], p) && Serves(c, NewSlot(pi, c.paths[pi], created), p)
      ensures Passed(c, slots, c.paths[pi])
    {
      ServedIsPassed(c, slots, pi, created, l, p);
    }
  }

  lemma CreateKeepsLinks(c: Call, slots: seq<Slot>, regs: seq<nat>, pi: nat, created: bool)
    requires pi < |c.paths| && LinkInv(c, slots, regs) && PlacesInv(c, slots, pi) && !Passed(c, slots, c.paths[pi])
    ensures LinkInv(c, slots + [NewSlot(pi, c.paths[pi], created)], regs)
  {
    var x := NewSlot(pi, c.paths[pi], created);
    var more := slots + [x];
    AllServedPassed(c, slots, regs, pi, created);
    assert HostIs(c, x) && x.reg == 0;
    hide Passed, HostIs, Serves, NewSlot, PlacesInv;
    assert forall k :: 0 <= k < |slots| ==> more[k] == slots[k];
    assert more[|slots|] == x;
    forall p | 0 <= p < |regs| && regs[p] != 0 ensures exists k :: 0 <= k < |more| && Serves(c, more[k], p) {
      var k :| 0 <= k < |slots| && Serves(c, slots[k], p);
      assert Serves(c, more[k], p);
    }
  }

  predicate SameLinks(a: seq<Slot>, b: seq<Slot>) {
    SamePlaces(a, b) && forall k :: 0 <= k < |a| ==>
      a[k].first == b[k].first && a[k].reg == b[k].reg && (b[k].run == Running ==> Started(b[k]))
  }

  lemma LinksStay(c: Call, a: seq<Slot>, b: seq<Slot>, regs: seq<nat>)
    requires SameLinks(a, b) && LinkInv(c, a, regs)
    ensures LinkInv(c, b, regs)
  {
    forall k | 0 <= k < |b| ensures HostIs(c, b[k]) {
      assert HostIs(c, a[k]);
    }
    forall k, p | 0 <= k < |b| && 0 <= p < |regs| && Serves(c, b[k], p) ensures regs[p] == b[k].reg {
      assert Serves(c, a[k], p);
    }
    forall p | 0 <= p < |regs| && regs[p] != 0 ensures exists k :: 0 <= k < |b| && Serves(c, b[k], p) {
      var k :| 0 <= k < |a| && Serves(c, a[k], p);
      assert Serves(c, b[k], p);
    }
  }

  lemma ThreadKeepsLinks(c: Call, s: State, t: nat, fault: int, upTo: nat)
    requires LinkInv(c, s.slots, s.regs) && PlacesInv(c, s.slots, upTo) && Enabled(c, s, Thread(t, fault))
    ensures LinkInv(c, ThreadStep(c, s, t, fault).slots, ThreadStep(c, s, t, fault).regs)
  {
    var x, y, n := s.slots[t], RunSlot(c, s, s.slots[t], fault), ThreadStep(c, s, t, fault);
    assert HostIs(c, x) && Serves(c, x, x.path);
    RunKeepsPlace(c, s, x, fault);
    hide RunSlot;
    forall k, p | 0 <= k < |n.slots| && 0 <= p < |n.regs| && Serves(c, n.slots[k], p) ensures n.regs[p] == n.slots[k].reg {
      assert Serves(c, s.slots[k], p);
      if k != t && Reaches(c, y, p) {
        assert Serves(c, x, p);
        ServedOnce(c, s.slots, upTo, k, t, p);
      }
    }
    forall p | 0 <= p < |n.regs| && n.regs[p] != 0 ensures exists k :: 0 <= k < |n.slots| && Serves(c, n.slots[k], p) {
      if Reaches(c, y, p) {
        assert Serves(c, n.slots[t], p);
      } else {
        var k :| 0 <= k < |s.slots| && Serves(c, s.slots[k], p);
        assert Serves(c, n.slots[k], p);
      }
    }
  }

  lemma RunKeepsPlace(c: Call, s: State, x: Slot, fault: int)
    requires fault != THREAD_ERROR && HostIs(c, x) && x.run == Running && RegAt(s.regs, x.path) == x.reg
    ensures var y := RunSlot(c, s, x, fault);
            && y.path == x.path && y.host == x.host && Started(y) && HostIs(c, y)
            && (y.status != SUCCESS ==> y.reg == x.reg)
  {
  }

  lemma ThreadInFirstRound(c: Call, s: State, t: nat, fault: int)
    requires c.key == 0 && PhaseInv(c, s) && Enabled(c, s, Thread(t, fault)) && FirstRound(s.phase)
    requires RegAt(s.regs, s.slots[t].path) == s.slots[t].reg
    ensures PhaseInv(c, ThreadStep(c, s, t, fault))
  {
    var n := ThreadStep(c, s, t, fault);
    assert FirstOk(c, s.slots[t]);
    assert Settled(c, n.slots[t]);
    hide Verdict, RunSlot, FirstOk;
    if s.phase.Joining? {
      var i := s.phase.i;
      assert t < i ==> Settled(c, s.slots[t]);
      assert n.slots[..i] == s.slots[..i];
    }
  }

  lemma ThreadInUndo(c: Call, s: State, t: nat, fault: int)
    requires PhaseInv(c, s) && Enabled(c, s, Thread(t, fault)) && !FirstRound(s.phase)
    requires RegAt(s.regs, s.slots[t].path) == s.slots[t].reg
    ensures PhaseInv(c, ThreadStep(c, s, t, fault))
  {
    var n := ThreadStep(c, s, t, fault);
    VerdictSame(s.slots, n.slots);
    var x, y := s.slots[t], n.slots[t];
    assert Undone(c, x) && Undoes(c, s) && n.clean ==> Undone(c, y) && y.run != Running;
    assert Settled(c, x) ==> x.run != Running;
    hide Verdict, RunSlot, Undone, Settled;
  }

  lemma OwnRegistration(c: Call, s: State, t: nat)
    requires LinkInv(c, s.slots, s.regs) && t < |s.slots| && s.slots[t].run == Running
    ensures RegAt(s.regs, s.slots[t].path) == s.slots[t].reg
  {
    assert HostIs(c, s.slots[t]) && Serves(c, s.slots[t], s.slots[t].path);
  }

  lemma ThreadKeepsInv(c: Call, s: State, t: nat, fault: int)
    requires c.key == 0 && Inv(c, s) && Enabled(c, s, Thread(t, fault))
    ensures Inv(c, ThreadStep(c, s, t, fault))
  {
    var n := ThreadStep(c, s, t, fault);
    PlacesStay(c, s.slots, n.slots, Reached(c, s.phase));
    OwnRegistration(c, s, t);
    ThreadKeepsLinks(c, s, t, fault, Reached(c, s.phase));
    hide PlacesInv, CoveredInv, PhaseInv, LinkInv;
    if FirstRound(s.phase) {
      ThreadInFirstRound(c, s, t, fault);
    } else {
      ThreadInUndo(c, s, t, fault);
    }
  }

  lemma MainCreating(c: Call, s: State, created: bool)
    requires Inv(c, s) && Enabled(c, s, Main(created)) && s.phase.Creating?
    ensures Inv(c, MainStep(c, s, created))
  {
    var pi := s.phase.pi;
    if pi < |c.paths| {
      if Passed(c, s.slots, c.paths[pi]) {
        PassKeepsPlaces(c, s.slots, pi);
      } else {
        CreateKeepsPlaces(c, s.slots, pi, created);
        CreateKeepsCovered(c, s.slots, pi, created);
        CreateKeepsLinks(c, s.slots, s.regs, pi, created);
      }
    }
    assert s.slots[..0] == [];
    hide PlacesInv, CoveredInv, LinkInv, Passed;
  }

  lemma MainJoining(c: Call, s: State, created: bool)
    requires PhaseInv(c, s) && Enabled(c, s, Main(created)) && s.phase.Joining?
    ensures PhaseInv(c, MainStep(c, s, created))
  {
    var i := s.phase.i;
    if i < |s.slots| {
      VerdictSnoc(s.slots, i);
    } else {
      assert s.slots[..i] == s.slots;
    }
    hide Verdict, Fold;
  }

  lemma MainUndoing(c: Call, s: State, created: bool)
    requires PhaseInv(c, s) && Enabled(c, s, Main(created)) && s.phase.Undoing?
    ensures PhaseInv(c, MainStep(c, s, created))
  {
    var u, n := s.phase.u, MainStep(c, s, created);
    if u < |s.slots| {
      VerdictSame(s.slots, n.slots);
      assert Settled(c, s.slots[u]);
      assert n.clean ==> Undone(c, n.slots[u]);
    }
    hide Verdict, Undone, UndoSlot, Settled;
  }

  lemma MainJoiningUndo(c: Call, s: State, created: bool)
    requires PhaseInv(c, s) && Enabled(c, s, Main(created)) && s.phase.JoiningUndo?
    ensures PhaseInv(c, MainStep(c, s, created))
  {
    var j := s.phase.j;
    if j < |s.slots| && s.clean {
      assert Undone(c, s.slots[j]);
    }
    hide Verdict;
  }

  lemma MainKeepsInv(c: Call, s: State, created: bool)
    requires Inv(c, s) && Enabled(c, s, Main(created))
    ensures Inv(c, MainStep(c, s, created))
  {
    if s.phase.Creating? {
      MainCreating(c, s, created);
    } else {
      LaterPlaces(c, s, created);
      LaterLinks(c, s, created);
      hide PhaseInv, PlacesInv, CoveredInv, LinkInv;
      match s.phase
      case Joining(_) => MainJoining(c, s, created);
      case Undoing(_) => MainUndoing(c, s, created);
      case JoiningUndo(_) => MainJoiningUndo(c, s, created);
    }
  }

  lemma LaterLinks(c: Call, s: State, created: bool)
    requires PhaseInv(c, s) && LinkInv(c, s.slots, s.regs) && Enabled(c, s, Main(created)) && !s.phase.Creating?
    ensures LinkInv(c, MainStep(c, s, created).slots, s.regs) && MainStep(c, s, created).regs == s.regs
  {
    var n := MainStep(c, s, created);
    assert forall k :: 0 <= k < |s.slots| ==> HostIs(c, s.slots[k]);
    if s.phase.Undoing? && s.phase.u < |s.slots| {
      assert Settled(c, s.slots[s.phase.u]);
    }
    hide Verdict, Fold, LinkInv;
    assert SameLinks(s.slots, n.slots);
    LinksStay(c, s.slots, n.slots, s.regs);
  }

  lemma LaterPlaces(c: Call, s: State, created: bool)
    requires Inv(c, s) && Enabled(c, s, Main(created)) && !s.phase.Creating?
    ensures PlacesInv(c, MainStep(c, s, created).slots, |c.paths|) && CoveredInv(c, MainStep(c, s, created).slots, |c.paths|)
    ensures !MainStep(c, s, created).phase.Creating?
  {
    hide PhaseInv, PlacesInv, CoveredInv, Verdict, Fold;
    var n := MainStep(c, s, created);
    assert SamePlaces(s.slots, n.slots);
    PlacesStay(c, s.slots, n.slots, |c.paths|);
  }

  /** The invariant holds in every state any interleaving can reach. */
  lemma {:induction false} RunKeepsInv(c: Call, ms: seq<Move>)
    requires c.key == 0 && After(c, ms).Some?
    ensures Inv(c, After(c, ms).value)
  {
    if ms != [] {
      var before, m := ms[..|ms| - 1], ms[|ms| - 1];
      RunKeepsInv(c, before);
      var s := After(c, before).value;
      hide Inv;
      match m
      case Main(created) => MainKeepsInv(c, s, created);
      case Thread(t, fault) => ThreadKeepsInv(c, s, t, fault);
    }
  }

  // ------------------------------------------------------------------ what the call promises

  predicate AllSucceeded(slots: seq<Slot>) {
    forall k :: 0 <= k < |slots| ==> slots[k].first == SUCCESS
  }

  predicate SomeConflict(slots: seq<Slot>) {
    exists k :: 0 <= k < |slots| && slots[k].first == CONFLICT
  }

  lemma {:induction false} VerdictIs(slots: seq<Slot>)
    ensures var (rb, st) := Verdict(slots);
            (rb <==> SomeConflict(slots)) && (st == SUCCESS <==> AllSucceeded(slots)) && (rb ==> st == CONFLICT)
  {
    if slots != [] {
      var front, last := slots[..|slots| - 1], slots[|slots| - 1];
      VerdictIs(front);
      assert slots[|slots| - 1] == last && forall k :: 0 <= k < |front| ==> slots[k] == front[k];
      hide Verdict;
      assert SomeConflict(slots) <==> SomeConflict(front) || last.first == CONFLICT by {
        if k :| 0 <= k < |slots| && slots[k].first == CONFLICT {
          assert k < |front| ==> front[k].first == CONFLICT;
        }
        if k :| 0 <= k < |front| && front[k].first == CONFLICT {
          assert slots[k].first == CONFLICT;
        }
      }
    }
  }

  /** The result is success if and only if every attempted registration succeeded, and conflict
      if any one met a conflict, in whatever order the threads ran. */
  lemma ResultIsVerdict(c: Call, ms: seq<Move>)
    requires c.key == 0 && After(c, ms).Some? && After(c, ms).value.phase == Finished
    ensures var s := After(c, ms).value;
            (s.status == SUCCESS <==> AllSucceeded(s.slots)) && (SomeConflict(s.slots) ==> s.status == CONFLICT)
  {
    RunKeepsInv(c, ms);
    VerdictIs(After(c, ms).value.slots);
    hide Verdict, After;
  }

  /** All: on success every active path is registered with the new key, with all target ports
      also those that got no thread. */
  lemma SuccessRegistersAll(c: Call, ms: seq<Move>, p: nat)
    requires c.key == 0 && After(c, ms).Some? && After(c, ms).value.phase == Finished
    requires After(c, ms).value.status == SUCCESS && p < |c.paths| && c.paths[p].active
    ensures RegAt(After(c, ms).value.regs, p) == c.saKey
  {
    RunKeepsInv(c, ms);
    var s := After(c, ms).value;
    VerdictIs(s.slots);
    hide Verdict, After;
    var k :| 0 <= k < |s.slots| && (s.slots[k].path == p || (c.allTgPt && c.paths[p].host != -1 && s.slots[k].host == c.paths[p].host));
    assert Settled(c, s.slots[k]);
    assert Serves(c, s.slots[k], p);
  }

  /** Nothing: after a conflict and a rollback without errors no path of the map stays
      registered, with all target ports neither one that got no thread. */
  lemma ConflictRegistersNone(c: Call, ms: seq<Move>, p: nat)
    requires c.key == 0 && After(c, ms).Some? && After(c, ms).value.phase == Finished
    requires c.action == Register && c.saKey != 0 && After(c, ms).value.clean
    requires SomeConflict(After(c, ms).value.slots) && p < |c.paths|
    ensures RegAt(After(c, ms).value.regs, p) == 0
  {
    RunKeepsInv(c, ms);
    var s := After(c, ms).value;
    VerdictIs(s.slots);
    hide Verdict, After;
    forall k | 0 <= k < |s.slots| ensures s.slots[k].reg == 0 {
      assert Undone(c, s.slots[k]);
    }
    hide Serves;
  }

  /** With all target ports a known host gets one started thread at most, and every active path
      has a thread of its own or one that registers its host. */
  lemma OneThreadPerHost(c: Call, ms: seq<Move>)
    requires c.key == 0 && After(c, ms).Some? && !After(c, ms).value.phase.Creating?
    ensures var slots := After(c, ms).value.slots;
            PlacesInv(c, slots, |c.paths|) && CoveredInv(c, slots, |c.paths|) &&
            ((exists p :: 0 <= p < |c.paths| && c.paths[p].active) ==> slots != [])
  {
    RunKeepsInv(c, ms);
  }

  /** Nobody runs a command while the parameters are rewritten for the rollback. */
  lemma ParametersRewrittenAlone(c: Call, ms: seq<Move>, m: Move, k: nat)
    requires c.key == 0 && After(c, ms).Some? && Enabled(c, After(c, ms).value, m)
    requires Step(c, After(c, ms).value, m).key != After(c, ms).value.key && k < |After(c, ms).value.slots|
    ensures After(c, ms).value.slots[k].run != Running
  {
    RunKeepsInv(c, ms);
    hide After, Verdict;
    var s := After(c, ms).value;
    assert s.phase == Joining(|s.slots|);
    assert Settled(c, s.slots[k]);
  }

  // ------------------------------------------------------------------ it comes to an end

  function RunningCount(slots: seq<Slot>): nat {
    if slots == [] then 0 else RunningCount(slots[..|slots| - 1]) + (if slots[|slots| - 1].run == Running then 1 else 0)
  }

  lemma {:induction false} RunningUpdate(slots: seq<Slot>, t: nat, x: Slot)
    requires t < |slots|
    ensures RunningCount(slots[t := x]) == RunningCount(slots) + (if x.run == Running then 1 else 0) -
                                           (if slots[t].run == Running then 1 else 0)
  {
    var f := slots[..|slots| - 1];
    if t < |f| {
      RunningUpdate(f, t, x);
      assert slots[t := x][..|slots| - 1] == f[t := x];
    } else {
      assert slots[t := x][..|slots| - 1] == f;
    }
  }

  /** Moves that are still to come, at most. */
  function Left(c: Call, s: State): int {
    var n, r := |s.slots|, RunningCount(s.slots);
    match s.phase
    case Creating(pi) => 6 * (|c.paths| - pi) + 4 * n + 4 + r
    case Joining(i) => (n - i) + 3 * n + 3 + r
    case Undoing(u) => 2 * (n - u) + n + 2 + r
    case JoiningUndo(j) => (n - j) + 1 + r
    case Finished => r
  }

  lemma MainCounts(c: Call, s: State, created: bool)
    requires Enabled(c, s, Main(created))
    ensures Left(c, MainStep(c, s, created)) < Left(c, s)
  {
    match s.phase
    case Creating(pi) =>
      if pi < |c.paths| && !Passed(c, s.slots, c.paths[pi]) {
        assert (s.slots + [NewSlot(pi, c.paths[pi], created)])[..|s.slots|] == s.slots;
      }
    case Undoing(u) =>
      if u < |s.slots| {
        RunningUpdate(s.slots, u, UndoSlot(s.slots[u], created));
        hide RunningCount;
      }
    case _ =>
      hide RunningCount;
  }

  lemma EveryMoveCounts(c: Call, s: State, m: Move)
    requires Enabled(c, s, m)
    ensures Left(c, Step(c, s, m)) < Left(c, s)
  {
    match m
    case Thread(t, fault) =>
      RunningUpdate(s.slots, t, RunSlot(c, s, s.slots[t], fault));
      hide RunningCount;
    case Main(created) => MainCounts(c, s, created);
  }

  lemma {:induction false} MovesAreLeft(c: Call, ms: seq<Move>)
    requires After(c, ms).Some?
    ensures |ms| + Left(c, After(c, ms).value) <= 6 * |c.paths| + 4
  {
    if ms != [] {
      hide Left;
      var before, m := ms[..|ms| - 1], ms[|ms| - 1];
      MovesAreLeft(c, before);
      EveryMoveCounts(c, After(c, before).value, m);
    }
  }

  /** Every run is short, whatever the interleaving. */
  lemma RunsAreBounded(c: Call, ms: seq<Move>)
    requires c.key == 0 && After(c, ms).Some?
    ensures |ms| <= 6 * |c.paths| + 4
  {
    MovesAreLeft(c, ms);
    RunKeepsInv(c, ms);
    hide After, PlacesInv, CoveredInv, Verdict;
  }

  /** Until the call has returned, somebody can move. */
  lemma NeverStuck(c: Call, ms: seq<Move>) returns (m: Move)
    requires c.key == 0 && After(c, ms).Some? && After(c, ms).value.phase != Finished
    ensures Enabled(c, After(c, ms).value, m)
  {
    RunKeepsInv(c, ms);
    var s := After(c, ms).value;
    if Enabled(c, s, Main(true)) {
      m := Main(true);
    } else {
      m := Thread(if s.phase.Joining? then s.phase.i else s.phase.j, SUCCESS);
    }
  }
}
