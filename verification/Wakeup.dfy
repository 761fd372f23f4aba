/**
 The handshake between the thread that runs an event loop (qemu/aio-posix.c) and
 threads that schedule bottom halves (qemu/async.c).  The scheduler skips the
 event notifier when it sees `dispatching`, trusting that the owner will look at
 the bottom halves again before it blocks.

 Every step is one access to shared memory; steps of all threads interleave in
 any order (sequential consistency, which the barriers of the original provide).
 `aio_poll` is not nested, and no handler has stale events when it is entered.
 */
module Wakeup {

  datatype Bh = Bh(scheduled: bool, idle: bool, deleted: bool)

  /** Where the owner is in `aio_poll`. */
  datatype Owner =
    | Outside
    | Begun                 // dispatching written, list not yet read
    | At(cur: int)          // about to read deleted of bottom half cur; below 0 the walk is over
    | Live(cur: int)        // saw deleted == 0, about to read scheduled
    | Clear(cur: int)       // about to write scheduled = 0
    | LoadIdle(cur: int)    // about to read idle
    | ClearIdle(cur: int)   // about to write idle = 0 and run the callback
    | Ready                 // dispatching written again, handlers without events passed over
    | Polling               // in poll
    | Polled(seen: bool)    // poll has returned, with an event on the notifier or not
    | Handling(seen: bool)  // dispatching set, about to run the handlers
    | Leaving               // about to restore dispatching

  /** Where another thread is in `qemu_bh_schedule`, `qemu_bh_schedule_idle` or `qemu_bh_delete`. */
  datatype Thread =
    | Schedule1(bh: nat)    // saw scheduled == 0
    | Schedule2(bh: nat)    // wrote idle = 0
    | Schedule3(bh: nat)    // wrote scheduled = 1, about to read dispatching
    | Schedule4(bh: nat)    // saw dispatching == 0, about to set the notifier
    | Idle1(bh: nat)        // saw scheduled == 0
    | Idle2(bh: nat)        // wrote idle = 1
    | Delete1(bh: nat)      // wrote scheduled = 0

  /** `blocking` and `progress` are locals of `aio_poll`; bottom halves are numbered in order of creation. */
  datatype State = State(
    bhs: seq<Bh>, dispatching: bool, notifier: bool,
    owner: Owner, blocking: bool, progress: bool, threads: map<nat, Thread>)

  datatype Step =
    // the owner
    | Enter(wantBlocking: bool)
    | ReadList
    | TestDeleted
    | TestScheduled
    | DoClear
    | DoLoadIdle
    | DoClearIdle
    | SetAgain
    | StartPoll
    | SkipPoll
    | PollReturns
    | SetDispatching
    | Handle
    | Leave
    // other threads
    | New
    | CallSchedule(t: nat, bh: nat)
    | CallScheduleIdle(t: nat, bh: nat)
    | CallDelete(t: nat, bh: nat)
    | Cancel(bh: nat)
    | Go(t: nat)

  predicate Enabled(s: State, step: Step) {
    match step
    case Enter(b) => s.owner == Outside
    case ReadList => s.owner == Begun
    case TestDeleted => s.owner.At?
    case TestScheduled => s.owner.Live?
    case DoClear => s.owner.Clear?
    case DoLoadIdle => s.owner.LoadIdle?
    case DoClearIdle => s.owner.ClearIdle?
    case SetAgain => s.owner.At? && s.owner.cur < 0
    case StartPoll => s.owner == Ready && (s.blocking || !s.progress)
    case SkipPoll => s.owner == Ready && !s.blocking
    case PollReturns => s.owner == Polling
    case SetDispatching => s.owner.Polled?
    case Handle => s.owner.Handling?
    case Leave => s.owner == Leaving
    case New => true
    case CallSchedule(t, b) => t !in s.threads && b < |s.bhs|
    case CallScheduleIdle(t, b) => t !in s.threads && b < |s.bhs|
    case CallDelete(t, b) => t !in s.threads && b < |s.bhs|
    case Cancel(b) => b < |s.bhs|
    case Go(t) => t in s.threads && s.threads[t].bh < |s.bhs|
  }

  predicate CurOk(s: State) {
    match s.owner
    case At(cur) => cur < |s.bhs|
    case Live(cur) => 0 <= cur < |s.bhs|
    case Clear(cur) => 0 <= cur < |s.bhs|
    case LoadIdle(cur) => 0 <= cur < |s.bhs|
    case ClearIdle(cur) => 0 <= cur < |s.bhs|
    case _ => true
  }

  function SetBh(s: State, b: nat, bh: Bh): State
    requires b < |s.bhs|
  {
    s.(bhs := s.bhs[b := bh])
  }

  /** One step of a thread inside a call. */
  function Advance(s: State, t: nat): State
    requires t in s.threads && s.threads[t].bh < |s.bhs|
  {
    var b := s.threads[t].bh;
    match s.threads[t]
    case Schedule1(_) => SetBh(s, b, s.bhs[b].(idle := false)).(threads := s.threads[t := Schedule2(b)])
    case Schedule2(_) => SetBh(s, b, s.bhs[b].(scheduled := true)).(threads := s.threads[t := Schedule3(b)])
    case Schedule3(_) => if s.dispatching then s.(threads := s.threads - {t})
        else s.(threads := s.threads[t := Schedule4(b)])
    case Schedule4(_) => s.(notifier := true, threads := s.threads - {t})
    case Idle1(_) => SetBh(s, b, s.bhs[b].(idle := true)).(threads := s.threads[t := Idle2(b)])
    case Idle2(_) => SetBh(s, b, s.bhs[b].(scheduled := true)).(threads := s.threads - {t})
    case Delete1(_) => SetBh(s, b, s.bhs[b].(deleted := true)).(threads := s.threads - {t})
  }

  function Next(s: State, step: Step): State
    requires Enabled(s, step) && CurOk(s)
  {
    match step
    case Enter(b) => s.(owner := Begun, blocking := b, progress := false, dispatching := !b)
    case ReadList => s.(owner := At(|s.bhs| - 1))
    case TestDeleted =>
      var cur := s.owner.cur;
      if cur < 0 then s
      else s.(owner := if s.bhs[cur].deleted then At(cur - 1) else Live(cur))
    case TestScheduled =>
      var cur := s.owner.cur;
      s.(owner := if s.bhs[cur].scheduled then Clear(cur) else At(cur - 1))
    case DoClear => SetBh(s, s.owner.cur, s.bhs[s.owner.cur].(scheduled := false)).(owner := LoadIdle(s.owner.cur))
    case DoLoadIdle => s.(owner := ClearIdle(s.owner.cur), progress := s.progress || !s.bhs[s.owner.cur].idle)
    case DoClearIdle => SetBh(s, s.owner.cur, s.bhs[s.owner.cur].(idle := false)).(owner := At(s.owner.cur - 1))
    case SetAgain =>
      var b := s.blocking && !s.progress;
      s.(owner := Ready, blocking := b, dispatching := !b)
    case StartPoll => s.(owner := Polling)
    case SkipPoll => s.(owner := Leaving)
    case PollReturns => s.(owner := Polled(s.notifier))
    case SetDispatching => s.(owner := Handling(s.owner.seen), dispatching := true)
    case Handle => s.(owner := Leaving, notifier := s.notifier && !s.owner.seen)
    case Leave => s.(owner := Outside, dispatching := false)
    case New => s.(bhs := s.bhs + [Bh(false, false, false)])
    case CallSchedule(t, b) => if s.bhs[b].scheduled then s else s.(threads := s.threads[t := Schedule1(b)])
    case CallScheduleIdle(t, b) => if s.bhs[b].scheduled then s else s.(threads := s.threads[t := Idle1(b)])
    case CallDelete(t, b) => SetBh(s, b, s.bhs[b].(scheduled := false)).(threads := s.threads[t := Delete1(b)])
    case Cancel(b) => SetBh(s, b, s.bhs[b].(scheduled := false))
    case Go(t) => Advance(s, t)
  }

  // ---------- The invariant ----------

  /** A bottom half that must not be slept over. */
  predicate Urgent(s: State, b: nat) {
    b < |s.bhs| && s.bhs[b].scheduled && !s.bhs[b].idle && !s.bhs[b].deleted
  }

  predicate Blocked(s: State) {
    s.owner == Polling && s.blocking
  }

  /** Some call of `qemu_bh_schedule` has yet to reach the notifier. */
  ghost predicate Pending(s: State, b: nat) {
    exists t :: t in s.threads &&
      (s.threads[t] == Schedule1(b) || s.threads[t] == Schedule2(b) || s.threads[t] == Schedule3(b) ||
          s.threads[t].Schedule4?)
  }

  /** The owner will test bottom half b before it blocks, or will not block before the next walk. */
  predicate WillLook(s: State, b: nat) {
    match s.owner
    case Begun => true
    case At(cur) => b <= cur || !s.blocking || s.progress
    case Live(cur) => b <= cur || !s.blocking || s.progress
    case Clear(cur) => b <= cur || !s.blocking || s.progress
    case LoadIdle(cur) => b < cur || !s.blocking || s.progress
    case ClearIdle(cur) => b < cur || !s.blocking || s.progress
    case Ready => !s.blocking
    case Polling => !s.blocking
    case _ => true
  }

  ghost predicate Covered(s: State, b: nat) {
    s.notifier || Pending(s, b) || WillLook(s, b)
  }

  /** No urgent bottom half is about to be slept over. */
  ghost predicate NoneLost(s: State) {
    forall b: nat :: Urgent(s, b) ==> Covered(s, b)
  }

  /** `dispatching` is only seen set while the owner is not on its way to block. */
  predicate DispatchingOk(owner: Owner, dispatching: bool, blocking: bool, progress: bool) {
    match owner
    case Outside => !dispatching
    case Begun => dispatching == !blocking && !progress
    case At(_) => dispatching == !blocking
    case Live(_) => dispatching == !blocking
    case Clear(_) => dispatching == !blocking
    case LoadIdle(_) => dispatching == !blocking
    case ClearIdle(_) => dispatching == !blocking
    case Ready => dispatching == !blocking
    case Polling => dispatching == !blocking
    case Polled(_) => true
    case Handling(_) => dispatching
    case Leaving => dispatching || !blocking
  }

  ghost predicate Inv(s: State) {
    && CurOk(s) && DispatchingOk(s.owner, s.dispatching, s.blocking, s.progress)
    && forall t :: t in s.threads ==> s.threads[t].bh < |s.bhs|
  }

  /** The owner writes idle = 0 over a bottom half that was scheduled as idle since the owner cleared it. */
  predicate IdleErased(s: State, step: Step) {
    && step == DoClearIdle && s.owner.ClearIdle? && 0 <= s.owner.cur < |s.bhs|
    && s.bhs[s.owner.cur] == Bh(true, true, false)
  }

  /** `qemu_bh_schedule_idle` writes scheduled = 1 after its idle = 1 has been overwritten. */
  predicate IdleOverwritten(s: State, step: Step) {
    && step.Go? && step.t in s.threads && s.threads[step.t].Idle2? && s.threads[step.t].bh < |s.bhs|
    && s.bhs[s.threads[step.t].bh] == Bh(false, false, false)
  }

  function RacedBh(s: State, step: Step): int
    requires IdleErased(s, step) || IdleOverwritten(s, step)
  {
    if IdleErased(s, step) then s.owner.cur else s.threads[step.t].bh
  }

  /**
   The steps after which an urgent bottom half can be slept over.  Both races
   turn a bottom half scheduled as idle into one that looks urgent; they matter
   when nothing else keeps the owner from blocking.
   */
  ghost predicate Breaks(s: State, step: Step) {
    && (IdleErased(s, step) || IdleOverwritten(s, step))
    && !Covered(s, RacedBh(s, step))
  }

  lemma ThreadInv(s: State, t: nat)
    requires Inv(s) && Enabled(s, Go(t))
    ensures Inv(Advance(s, t))
  {
    hide DispatchingOk, Next;
    var s' := Advance(s, t);
    forall u | u in s'.threads ensures s'.threads[u].bh < |s'.bhs| {
      assert u != t ==> u in s.threads && s'.threads[u] == s.threads[u];
    }
  }

  lemma InvKept(s: State, step: Step)
    requires Inv(s) && Enabled(s, step)
    ensures Inv(Next(s, step))
  {
    hide Advance;
    if step.Go? {
      ThreadInv(s, step.t);
    }
  }

  /** Other threads' steps: a call in progress stays pending until it has set the notifier or seen `dispatching`. */
  lemma PendingKept(s: State, t: nat, b: nat)
    requires Inv(s) && Enabled(s, Go(t)) && Pending(s, b)
    ensures var s' := Advance(s, t); s'.notifier || Pending(s', b) || WillLook(s', b)
  {
    var u :| u in s.threads &&
      (s.threads[u] == Schedule1(b) || s.threads[u] == Schedule2(b) || s.threads[u] == Schedule3(b) ||
          s.threads[u].Schedule4?);
    var s' := Advance(s, t);
    if u in s'.threads {
      assert s'.threads[u] == s.threads[u] || u == t;
    }
  }

  /** A thread's step leaves every urgent bottom half covered, unless it is the race. */
  lemma ThreadCovers(s: State, t: nat)
    requires Inv(s) && NoneLost(s) && Enabled(s, Go(t)) && !Breaks(s, Go(t))
    ensures NoneLost(Advance(s, t))
  {
    var s' := Advance(s, t);
    forall b: nat | Urgent(s', b) ensures Covered(s', b) {
      assert Urgent(s, b) || s.threads[t].bh == b;
      assert Covered(s, b);
      if Pending(s, b) {
        PendingKept(s, t, b);
      }
    }
  }

  /** The race does lose the bottom half. */
  lemma ThreadLoses(s: State, t: nat)
    requires Inv(s) && Enabled(s, Go(t)) && Breaks(s, Go(t))
    ensures !NoneLost(Advance(s, t))
  {
    var s', b := Advance(s, t), s.threads[t].bh;
    assert forall u :: u in s'.threads ==> u in s.threads && s'.threads[u] == s.threads[u];
    assert Pending(s', b) ==> Pending(s, b);
    assert Urgent(s', b) && !Covered(s', b);
  }

  /** Steps that start no call and touch no notifier keep what is pending. */
  lemma OwnerKeepsPending(s: State, s': State, b: nat)
    requires s'.threads == s.threads
    ensures Pending(s', b) == Pending(s, b)
  {
  }

  lemma CallCovers(s: State, step: Step)
    requires Inv(s) && NoneLost(s) && Enabled(s, step)
    requires step.CallSchedule? || step.CallScheduleIdle? || step.CallDelete?
    ensures NoneLost(Next(s, step))
  {
    hide Advance, DispatchingOk;
    var s' := Next(s, step);
    forall b: nat | Urgent(s', b) ensures Covered(s', b) {
      assert Urgent(s, b);
      if Pending(s, b) {
        var u :| u in s.threads &&
          (s.threads[u] == Schedule1(b) || s.threads[u] == Schedule2(b) || s.threads[u] == Schedule3(b) ||
              s.threads[u].Schedule4?);
        assert u in s'.threads && s'.threads[u] == s.threads[u];
      }
    }
  }

  /** Such a step makes a bottom half urgent only by clearing its idle flag. */
  lemma WasUrgent(s: State, step: Step, b: nat)
    requires Inv(s) && Enabled(s, step) && Urgent(Next(s, step), b)
    requires !step.CallSchedule? && !step.CallScheduleIdle? && !step.CallDelete? && !step.Go?
    ensures Urgent(s, b) || (step == DoClearIdle && b == s.owner.cur && b < |s.bhs| && s.bhs[b].idle)
  {
    hide Advance;
  }

  lemma OwnerCovers(s: State, step: Step)
    requires Inv(s) && NoneLost(s) && Enabled(s, step)
    requires !step.CallSchedule? && !step.CallScheduleIdle? && !step.CallDelete? && !step.Go?
    ensures !Breaks(s, step) ==> NoneLost(Next(s, step))
  {
    hide Pending, Advance;
    var s' := Next(s, step);
    if !Breaks(s, step) {
      forall b: nat | Urgent(s', b) ensures Covered(s', b) {
        OwnerKeepsPending(s, s', b);
        WasUrgent(s, step, b);
        if !Urgent(s, b) {
          assert IdleErased(s, step) && RacedBh(s, step) == b;
        }
      }
    }
  }

  lemma BreaksLoses(s: State)
    requires Inv(s) && Breaks(s, DoClearIdle)
    ensures !NoneLost(Next(s, DoClearIdle))
  {
    var s' := Next(s, DoClearIdle);
    OwnerKeepsPending(s, s', s.owner.cur);
    assert Urgent(s', s.owner.cur) && !Covered(s', s.owner.cur);
  }

  /** Exactly one kind of step can lose a wake-up. */
  lemma StepLosesIff(s: State, step: Step)
    requires Inv(s) && NoneLost(s) && Enabled(s, step)
    ensures Inv(Next(s, step))
    ensures NoneLost(Next(s, step)) <==> !Breaks(s, step)
  {
    InvKept(s, step);
    if step.Go? {
      if Breaks(s, step) {
        ThreadLoses(s, step.t);
      } else {
        ThreadCovers(s, step.t);
      }
    } else if step.CallSchedule? || step.CallScheduleIdle? || step.CallDelete? {
      CallCovers(s, step);
    } else {
      OwnerCovers(s, step);
      if Breaks(s, step) {
        BreaksLoses(s);
      }
    }
  }

  // ---------- Whole runs ----------

  ghost predicate Init(s: State) {
    s.owner == Outside && !s.dispatching && !s.notifier && s.threads == map[] && s.bhs == []
  }

  ghost predicate Reaches(s: State, steps: seq<Step>, s': State)
    decreases steps
  {
    if steps == [] then s == s'
    else Enabled(s, steps[0]) && CurOk(s) && Reaches(Next(s, steps[0]), steps[1..], s')
  }

  /** No step of the run is the race on `idle`. */
  ghost predicate RaceFree(s: State, steps: seq<Step>)
    decreases steps
  {
    steps == [] ||
    (!Breaks(s, steps[0]) && (Enabled(s, steps[0]) && CurOk(s) ==> RaceFree(Next(s, steps[0]), steps[1..])))
  }

  lemma {:induction false} RunKeeps(s: State, steps: seq<Step>, s': State)
    requires Inv(s) && NoneLost(s) && Reaches(s, steps, s') && RaceFree(s, steps)
    ensures Inv(s') && NoneLost(s')
    decreases steps
  {
    if steps != [] {
      StepLosesIff(s, steps[0]);
      RunKeeps(Next(s, steps[0]), steps[1..], s');
    }
  }

  /**
   No lost wake-up: in every race-free run, when the owner is blocked and an
   urgent bottom half exists, the notifier is set or a call will still set it.
   */
  lemma NoLostWakeup(s0: State, steps: seq<Step>, s: State, b: nat)
    requires Init(s0) && Reaches(s0, steps, s) && RaceFree(s0, steps)
    requires Blocked(s) && Urgent(s, b)
    ensures s.notifier || Pending(s, b)
  {
    RunKeeps(s0, steps, s);
  }

  ghost predicate NoIdle(s: State) {
    && (forall b :: 0 <= b < |s.bhs| ==> !s.bhs[b].idle)
    && (forall t :: t in s.threads ==> !s.threads[t].Idle1? && !s.threads[t].Idle2?)
  }

  lemma NoIdleKept(s: State, step: Step)
    requires NoIdle(s) && Enabled(s, step) && CurOk(s) && !step.CallScheduleIdle?
    ensures NoIdle(Next(s, step)) && !Breaks(s, step)
  {
    hide Covered, Advance;
    if step.Go? {
      NoIdleThread(s, step.t);
    }
  }

  lemma NoIdleThread(s: State, t: nat)
    requires NoIdle(s) && t in s.threads && s.threads[t].bh < |s.bhs|
    ensures NoIdle(Advance(s, t))
  {
    var s' := Advance(s, t);
    forall u | u in s'.threads ensures !s'.threads[u].Idle1? && !s'.threads[u].Idle2? {
      assert u != t ==> u in s.threads && s'.threads[u] == s.threads[u];
    }
  }

  /** Runs that never call `qemu_bh_schedule_idle` are free of the race. */
  lemma {:induction false} WithoutIdleNoRace(s: State, steps: seq<Step>, s': State)
    requires NoIdle(s) && Reaches(s, steps, s')
    requires forall i :: 0 <= i < |steps| ==> !steps[i].CallScheduleIdle?
    ensures RaceFree(s, steps)
    decreases steps
  {
    if steps != [] {
      NoIdleKept(s, steps[0]);
      WithoutIdleNoRace(Next(s, steps[0]), steps[1..], s');
    }
  }

  function Repeat(t: nat, n: nat): (r: seq<Step>)
    ensures |r| == n && forall i :: 0 <= i < n ==> r[i] == Go(t)
  {
    if n == 0 then [] else [Go(t)] + Repeat(t, n - 1)
  }

  /** How many steps a scheduling call is away from having set the notifier. */
  function StepsLeft(th: Thread): nat {
    match th
    case Schedule1(_) => 4
    case Schedule2(_) => 3
    case Schedule3(_) => 2
    case Schedule4(_) => 1
    case _ => 0
  }

  /** While the owner is blocked a pending call does set the notifier, by its own steps alone. */
  lemma {:induction false} PendingCallNotifies(s: State, t: nat) returns (s': State)
    requires Inv(s) && Blocked(s) && t in s.threads && StepsLeft(s.threads[t]) > 0
    ensures Reaches(s, Repeat(t, StepsLeft(s.threads[t])), s') && s'.notifier && Blocked(s')
    decreases StepsLeft(s.threads[t])
  {
    var s1 := Next(s, Go(t));
    InvKept(s, Go(t));
    assert Repeat(t, StepsLeft(s.threads[t]))[1..] == Repeat(t, StepsLeft(s.threads[t]) - 1);
    if s.threads[t].Schedule4? {
      s' := s1;
    } else {
      s' := PendingCallNotifies(s1, t);
    }
  }

  lemma Prepend(s: State, step: Step, next: State, rest: seq<Step>, s': State)
    requires Enabled(s, step) && CurOk(s) && Next(s, step) == next && Reaches(next, rest, s')
    ensures Reaches(s, [step] + rest, s')
  {
    assert ([step] + rest)[1..] == rest;
  }

  function OneBh(bh: Bh, owner: Owner, blocking: bool, threads: map<nat, Thread>): State {
    State([bh], false, false, owner, blocking, false, threads)
  }

  /** The owner, on its way to block, ends its walk and polls. */
  lemma ThenSleeps(bh: Bh, threads: map<nat, Thread>) returns (steps: seq<Step>)
    ensures Reaches(OneBh(bh, At(-1), true, threads), steps, OneBh(bh, Polling, true, threads))
  {
    var s := OneBh(bh, Polling, true, threads);
    assert Reaches(s, [], s);
    hide Reaches;
    Prepend(OneBh(bh, Ready, true, threads), StartPoll, s, [], s);
    Prepend(OneBh(bh, At(-1), true, threads), SetAgain, OneBh(bh, Ready, true, threads), [StartPoll] + [], s);
    steps := [SetAgain] + ([StartPoll] + []);
  }

  /** The second store of `qemu_bh_schedule_idle`. */
  lemma SchedulesLast(t: nat, owner: Owner, blocking: bool, rest: seq<Step>, s: State)
    requires CurOk(OneBh(Bh(false, true, false), owner, blocking, map[]))
    requires Reaches(OneBh(Bh(true, true, false), owner, blocking, map[]), rest, s)
    ensures Reaches(OneBh(Bh(false, true, false), owner, blocking, map[t := Idle2(0)]), [Go(t)] + rest, s)
  {
    hide Reaches;
    assert map[t := Idle2(0)] - {t} == map[];
    Prepend(OneBh(Bh(false, true, false), owner, blocking, map[t := Idle2(0)]), Go(t),
            OneBh(Bh(true, true, false), owner, blocking, map[]), rest, s);
  }

  lemma IdleSteps(t: nat, idle: bool, owner: Owner, blocking: bool)
    requires CurOk(OneBh(Bh(false, idle, false), owner, blocking, map[]))
    ensures var s0 := OneBh(Bh(false, idle, false), owner, blocking, map[]);
            var s1 := OneBh(Bh(false, idle, false), owner, blocking, map[t := Idle1(0)]);
            var s2 := OneBh(Bh(false, true, false), owner, blocking, map[t := Idle2(0)]);
            && CurOk(s0) && CurOk(s1) && CurOk(OneBh(Bh(false, true, false), owner, blocking, map[]))
            && Enabled(s0, CallScheduleIdle(t, 0)) && Next(s0, CallScheduleIdle(t, 0)) == s1
            && Enabled(s1, Go(t)) && Next(s1, Go(t)) == s2
  {
    assert map[t := Idle1(0)][t := Idle2(0)] == map[t := Idle2(0)];
  }

  /** A call of `qemu_bh_schedule_idle` by thread t up to its first store. */
  lemma IdleBegins(t: nat, idle: bool, owner: Owner, blocking: bool, rest: seq<Step>, s: State)
    returns (steps: seq<Step>)
    requires CurOk(OneBh(Bh(false, idle, false), owner, blocking, map[]))
    requires Reaches(OneBh(Bh(false, true, false), owner, blocking, map[t := Idle2(0)]), rest, s)
    ensures Reaches(OneBh(Bh(false, idle, false), owner, blocking, map[]), steps, s)
  {
    hide Reaches, Next, Enabled, CurOk;
    var s0 := OneBh(Bh(false, idle, false), owner, blocking, map[]);
    var s1 := OneBh(Bh(false, idle, false), owner, blocking, map[t := Idle1(0)]);
    var s2 := OneBh(Bh(false, true, false), owner, blocking, map[t := Idle2(0)]);
    IdleSteps(t, idle, owner, blocking);
    Prepend(s1, Go(t), s2, rest, s);
    Prepend(s0, CallScheduleIdle(t, 0), s1, [Go(t)] + rest, s);
    steps := [CallScheduleIdle(t, 0)] + ([Go(t)] + rest);
  }

  /** A whole call of `qemu_bh_schedule_idle` by thread t. */
  lemma SchedulesIdle(t: nat, idle: bool, owner: Owner, blocking: bool, rest: seq<Step>, s: State)
    returns (steps: seq<Step>)
    requires CurOk(OneBh(Bh(false, idle, false), owner, blocking, map[]))
    requires Reaches(OneBh(Bh(true, true, false), owner, blocking, map[]), rest, s)
    ensures Reaches(OneBh(Bh(false, idle, false), owner, blocking, map[]), steps, s)
  {
    hide Reaches, Next, Enabled, CurOk;
    IdleSteps(t, idle, owner, blocking);
    SchedulesLast(t, owner, blocking, rest, s);
    steps := IdleBegins(t, idle, owner, blocking, [Go(t)] + rest, s);
  }

  /** The owner enters, finds the idle bottom half and clears it. */
  lemma OwnerPicksUp(rest: seq<Step>, s: State) returns (steps: seq<Step>)
    requires Reaches(OneBh(Bh(false, true, false), ClearIdle(0), true, map[]), rest, s)
    ensures Reaches(OneBh(Bh(true, true, false), Outside, false, map[]), steps, s)
  {
    hide Reaches;
    var bh := Bh(true, true, false);
    Prepend(OneBh(Bh(false, true, false), LoadIdle(0), true, map[]), DoLoadIdle,
            OneBh(Bh(false, true, false), ClearIdle(0), true, map[]), rest, s);
    var r1 := [DoLoadIdle] + rest;
    Prepend(OneBh(bh, Clear(0), true, map[]), DoClear, OneBh(Bh(false, true, false), LoadIdle(0), true, map[]), r1, s);
    var r2 := [DoClear] + r1;
    Prepend(OneBh(bh, Live(0), true, map[]), TestScheduled, OneBh(bh, Clear(0), true, map[]), r2, s);
    var r3 := [TestScheduled] + r2;
    Prepend(OneBh(bh, At(0), true, map[]), TestDeleted, OneBh(bh, Live(0), true, map[]), r3, s);
    var r4 := [TestDeleted] + r3;
    Prepend(OneBh(bh, Begun, true, map[]), ReadList, OneBh(bh, At(0), true, map[]), r4, s);
    var r5 := [ReadList] + r4;
    Prepend(OneBh(bh, Outside, false, map[]), Enter(true), OneBh(bh, Begun, true, map[]), r5, s);
    steps := [Enter(true)] + r5;
  }

  const Empty := State([], false, false, Outside, false, false, map[])

  /** From the start: a bottom half is scheduled as idle and the owner is about to run it. */
  lemma FirstPickedUp(rest: seq<Step>, s: State) returns (steps: seq<Step>)
    requires Reaches(OneBh(Bh(false, true, false), ClearIdle(0), true, map[]), rest, s)
    ensures Reaches(Empty, steps, s)
  {
    hide Reaches;
    var r := OwnerPicksUp(rest, s);
    r := SchedulesIdle(1, false, Outside, false, r, s);
    Prepend(Empty, New, OneBh(Bh(false, false, false), Outside, false, map[]), r, s);
    steps := [New] + r;
  }

  /**
   A whole run with the first race: the bottom half is scheduled as idle again before
   the owner clears its idle flag, and the owner ends up blocked with it due.
   */
  lemma RaceSleepsOver() returns (s0: State, steps: seq<Step>, s: State)
    ensures Init(s0) && Reaches(s0, steps, s)
    ensures Blocked(s) && Urgent(s, 0) && !s.notifier && s.threads == map[]
  {
    hide Reaches;
    s := OneBh(Bh(true, false, false), Polling, true, map[]);
    var r := ThenSleeps(Bh(true, false, false), map[]);
    Prepend(OneBh(Bh(true, true, false), ClearIdle(0), true, map[]), DoClearIdle,
            OneBh(Bh(true, false, false), At(-1), true, map[]), r, s);
    r := SchedulesIdle(2, true, ClearIdle(0), true, [DoClearIdle] + r, s);
    s0 := Empty;
    steps := FirstPickedUp(r, s);
  }

  /** The two steps of the second race: the owner's store to idle, and the thread's store to scheduled. */
  lemma OverwritingSteps(threads: map<nat, Thread>)
    requires threads == map[2 := Idle2(0)]
    ensures var s := OneBh(Bh(false, true, false), ClearIdle(0), true, threads);
            && Enabled(s, DoClearIdle) && CurOk(s)
            && Next(s, DoClearIdle) == OneBh(Bh(false, false, false), At(-1), true, threads)
    ensures var s := OneBh(Bh(false, false, false), Polling, true, threads);
            && Enabled(s, Go(2)) && CurOk(s) && IdleOverwritten(s, Go(2))
            && Next(s, Go(2)) == OneBh(Bh(true, false, false), Polling, true, map[])
    ensures CurOk(OneBh(Bh(false, true, false), ClearIdle(0), true, map[]))
  {
    assert threads - {2} == map[];
  }

  /**
   A whole run with the second race: the owner clears the idle flag between the two
   stores of `qemu_bh_schedule_idle` and blocks before the second.
   */
  lemma RaceOverwrites() returns (s0: State, steps: seq<Step>, s1: State, s: State)
    ensures Init(s0) && Reaches(s0, steps, s1) && CurOk(s1) && IdleOverwritten(s1, Go(2)) && s == Next(s1, Go(2))
    ensures Blocked(s) && Urgent(s, 0) && !s.notifier && s.threads == map[]
  {
    hide Reaches, Next, Enabled, CurOk, IdleOverwritten;
    var bh, threads := Bh(false, false, false), map[2 := Idle2(0)];
    OverwritingSteps(threads);
    s1 := OneBh(bh, Polling, true, threads);
    var r := ThenSleeps(bh, threads);
    Prepend(OneBh(Bh(false, true, false), ClearIdle(0), true, threads), DoClearIdle,
            OneBh(bh, At(-1), true, threads), r, s1);
    r := IdleBegins(2, true, ClearIdle(0), true, [DoClearIdle] + r, s1);
    s0 := Empty;
    steps := FirstPickedUp(r, s1);
    s := OneBh(Bh(true, false, false), Polling, true, map[]);
  }
}
