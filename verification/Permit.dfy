/** The one-permit worker protocol of `interpreter_literal_shell_commands` (src/ast_matcher.rs):
    callers, the shared flag, and workers that outlive a caller's deadline, over every
    interleaving. A panicking worker drops its captures in the order source, permit, sender. */
module Permit {
  import opened Wrappers

  type Id = nat

  datatype Outcome<R> = Success(result: R) | Busy | NotStarted | TimedOut | Unfinished

  /** `Admitted` has passed the cheap gates; `Holding` owns the permit; `Launched` has handed it
      to a worker; `Waiting` is in the timed receive. */
  datatype Phase<R> =
    | Admitted
    | Holding
    | Launched(worker: Id)
    | Waiting(worker: Id)
    | Done(outcome: Outcome<R>, at: nat)

  datatype Caller<R> = Caller(started: nat, budget: nat, phase: Phase<R>)

  /** A worker analyses, then lets go of source and tree, then of the permit, and then answers;
      `ok` is false when the analysis panicked and there will be no answer. */
  datatype Stage = Working | Ending(ok: bool) | SourceGone(ok: bool) | PermitGone(ok: bool) | Gone(ok: bool)

  datatype Worker = Worker(owner: Id, stage: Stage)

  datatype State<R> = State(clock: nat, active: bool, callers: map<Id, Caller<R>>, workers: map<Id, Worker>)

  datatype Step =
    | Tick(d: nat)
    | Arrive(c: Id, budget: nat)
    | Acquire(c: Id)
    | SpawnFails(c: Id)
    | Spawn(c: Id, w: Id)
    | CheckBudget(c: Id)
    | Receive(c: Id)
    | ReceiveTimesOut(c: Id)
    | Disconnected(c: Id)
    | Finish(w: Id, ok: bool)
    | DropSource(w: Id)
    | DropPermit(w: Id)
    | Answer(w: Id)

  predicate HasPermit(g: Stage) { g.Working? || g.Ending? || g.SourceGone? }

  predicate HasSource(g: Stage) { g.Working? || g.Ending? }

  function WithPhase<R>(s: State<R>, c: Id, p: Phase<R>): State<R>
    requires c in s.callers
  {
    s.(callers := s.callers[c := s.callers[c].(phase := p)])
  }

  function WithStage<R>(s: State<R>, w: Id, g: Stage): State<R>
    requires w in s.workers
  {
    s.(workers := s.workers[w := s.workers[w].(stage := g)])
  }

  function Elapsed<R>(s: State<R>, c: Id): int
    requires c in s.callers
  {
    s.clock - s.callers[c].started
  }

  predicate InPhase<R(==)>(s: State<R>, c: Id, p: Phase<R>) {
    c in s.callers && s.callers[c].phase == p
  }

  predicate IsWaiting<R>(s: State<R>, c: Id) {
    c in s.callers && s.callers[c].phase.Waiting? && s.callers[c].phase.worker in s.workers
  }

  /** One step; nothing when it is not enabled. `compute` is the analysis of a caller's source. */
  function Next<R(==)>(s: State<R>, step: Step, compute: Id -> R): Option<State<R>> {
    match step
    case Tick(d) => Some(s.(clock := s.clock + d))
    case Arrive(c, budget) =>
      if c in s.callers then None
      else
        var phase := if budget == 0 then Done(TimedOut, s.clock) else Admitted;
        Some(s.(callers := s.callers[c := Caller(s.clock, budget, phase)]))
    case Acquire(c) =>
      if !InPhase(s, c, Admitted) then None
      else if s.active then Some(WithPhase(s, c, Done(Busy, s.clock)))
      else Some(WithPhase(s, c, Holding).(active := true))
    case SpawnFails(c) =>
      // The closure is dropped with the permit inside it.
      if !InPhase(s, c, Holding) then None
      else Some(WithPhase(s, c, Done(NotStarted, s.clock)).(active := false))
    case Spawn(c, w) =>
      if !InPhase(s, c, Holding) || w in s.workers then None
      else Some(WithPhase(s, c, Launched(w)).(workers := s.workers[w := Worker(c, Working)]))
    case CheckBudget(c) =>
      if c !in s.callers || !s.callers[c].phase.Launched? then None
      else if Elapsed(s, c) > s.callers[c].budget then Some(WithPhase(s, c, Done(TimedOut, s.clock)))
      else Some(WithPhase(s, c, Waiting(s.callers[c].phase.worker)))
    case Receive(c) =>
      if !IsWaiting(s, c) || s.workers[s.callers[c].phase.worker].stage != Gone(true) then None
      else if Elapsed(s, c) < s.callers[c].budget then
        Some(WithPhase(s, c, Done(Success(compute(s.workers[s.callers[c].phase.worker].owner)), s.clock)))
      else Some(WithPhase(s, c, Done(TimedOut, s.clock)))
    case ReceiveTimesOut(c) =>
      if !IsWaiting(s, c) || s.workers[s.callers[c].phase.worker].stage.Gone? then None
      else if Elapsed(s, c) < s.callers[c].budget then None
      else Some(WithPhase(s, c, Done(TimedOut, s.clock)))
    case Disconnected(c) =>
      if !IsWaiting(s, c) || s.workers[s.callers[c].phase.worker].stage != Gone(false) then None
      else Some(WithPhase(s, c, Done(Unfinished, s.clock)))
    case Finish(w, ok) =>
      if w !in s.workers || s.workers[w].stage != Working then None else Some(WithStage(s, w, Ending(ok)))
    case DropSource(w) =>
      if w !in s.workers || !s.workers[w].stage.Ending? then None
      else Some(WithStage(s, w, SourceGone(s.workers[w].stage.ok)))
    case DropPermit(w) =>
      if w !in s.workers || !s.workers[w].stage.SourceGone? then None
      else Some(WithStage(s, w, PermitGone(s.workers[w].stage.ok)).(active := false))
    case Answer(w) =>
      if w !in s.workers || !s.workers[w].stage.PermitGone? then None
      else Some(WithStage(s, w, Gone(s.workers[w].stage.ok)))
  }

  function Init<R>(): State<R> {
    State(0, false, map[], map[])
  }

  function Run<R(==)>(s: State<R>, steps: seq<Step>, compute: Id -> R): Option<State<R>>
    decreases |steps|
  {
    if steps == [] then Some(s) else
    var t := Next(s, steps[0], compute);
    if t.None? then None else Run(t.value, steps[1..], compute)
  }

  // ------------------------------------------------------------- invariant

  /** Who can own the permit. */
  datatype Owner = CallerHolds(c: Id) | WorkerHolds(w: Id)

  predicate Owns<R>(s: State<R>, o: Owner) {
    match o
    case CallerHolds(c) => c in s.callers && s.callers[c].phase.Holding?
    case WorkerHolds(w) => w in s.workers && HasPermit(s.workers[w].stage)
  }

  /** The flag is up exactly while there is a permit, and there is never a second one. */
  ghost predicate OnePermit<R>(s: State<R>) {
    && (s.active <==> exists o :: Owns(s, o))
    && (forall o, p :: Owns(s, o) && Owns(s, p) ==> o == p)
  }

  /** A caller and the worker it started point at each other; a caller without one has none. */
  ghost predicate Paired<R>(s: State<R>) {
    && (forall w :: w in s.workers ==>
         s.workers[w].owner in s.callers && MayOwn(s.callers[s.workers[w].owner].phase, w))
    && (forall w, v :: w in s.workers && v in s.workers && s.workers[w].owner == s.workers[v].owner ==> w == v)
    && (forall c :: c in s.callers && StartedOne(s.callers[c].phase) ==>
          s.callers[c].phase.worker in s.workers && s.workers[s.callers[c].phase.worker].owner == c)
  }

  predicate StartedOne<R>(p: Phase<R>) { p.Launched? || p.Waiting? }

  /** The phases of a caller that has started worker `w`. */
  predicate MayOwn<R>(p: Phase<R>, w: Id) {
    match p
    case Launched(v) => v == w
    case Waiting(v) => v == w
    case Done(o, _) => o.Success? || o.TimedOut? || o.Unfinished?
    case _ => false
  }

  /** A success is the caller's own worker's answer, received inside the budget. */
  ghost predicate HonestSuccess<R>(s: State<R>, compute: Id -> R) {
    forall c :: c in s.callers && s.callers[c].phase.Done? && s.callers[c].phase.outcome.Success? ==>
      && s.callers[c].phase.outcome.result == compute(c)
      && s.callers[c].phase.at <= s.clock
      && s.callers[c].phase.at - s.callers[c].started < s.callers[c].budget
      && exists w :: w in s.workers && s.workers[w] == Worker(c, Gone(true))
  }

  ghost predicate Inv<R>(s: State<R>, compute: Id -> R) {
    OnePermit(s) && Paired(s) && HonestSuccess(s, compute)
  }

  lemma InitInv<R>(compute: Id -> R)
    ensures Inv(Init<R>(), compute)
  {
    assert forall o :: !Owns(Init<R>(), o);
  }

  /** Steps that leave every ownership of the permit as it was. */
  lemma SamePermit<R>(s: State<R>, t: State<R>)
    requires OnePermit(s) && s.active == t.active && forall o :: Owns(s, o) <==> Owns(t, o)
    ensures OnePermit(t)
  {}

  /** The permit passes from `o` to `p`. */
  lemma PassPermit<R>(s: State<R>, t: State<R>, o: Owner, p: Owner)
    requires OnePermit(s) && Owns(s, o) && t.active == s.active && Owns(t, p)
    requires forall q :: q != o && q != p ==> (Owns(s, q) <==> Owns(t, q))
    requires o != p ==> !Owns(t, o)
    ensures OnePermit(t)
  {
    forall q | Owns(t, q) ensures q == p {
      assert q == p || Owns(s, q);
    }
  }

  lemma TakePermit<R>(s: State<R>, t: State<R>, p: Owner)
    requires OnePermit(s) && !s.active && t.active && Owns(t, p)
    requires forall q :: q != p ==> (Owns(s, q) <==> Owns(t, q))
    ensures OnePermit(t)
  {
    forall q | Owns(t, q) ensures q == p {
      assert q == p || Owns(s, q);
    }
  }

  lemma DropsPermit<R>(s: State<R>, t: State<R>, o: Owner)
    requires OnePermit(s) && Owns(s, o) && !t.active && !Owns(t, o)
    requires forall q :: q != o ==> (Owns(s, q) <==> Owns(t, q))
    ensures OnePermit(t)
  {
    forall q ensures !Owns(t, q) {
      assert Owns(t, q) ==> Owns(s, q);
    }
  }

  lemma PermitStep<R>(s: State<R>, step: Step, compute: Id -> R)
    requires OnePermit(s) && Next(s, step, compute).Some?
    ensures OnePermit(Next(s, step, compute).value)
  {
    assert forall o :: Owns(s, o) ==> s.active;
    hide OnePermit;
    hide Paired;
    hide HonestSuccess;
    var t := Next(s, step, compute).value;
    match step
    case Acquire(c) =>
      if s.active { SamePermit(s, t); } else { TakePermit(s, t, CallerHolds(c)); }
    case SpawnFails(c) => DropsPermit(s, t, CallerHolds(c));
    case Spawn(c, w) => PassPermit(s, t, CallerHolds(c), WorkerHolds(w));
    case DropPermit(w) => DropsPermit(s, t, WorkerHolds(w));
    case Tick(_) => SamePermit(s, t);
    case Arrive(_, _) => SamePermit(s, t);
    case CheckBudget(_) => SamePermit(s, t);
    case Receive(_) => SamePermit(s, t);
    case ReceiveTimesOut(_) => SamePermit(s, t);
    case Disconnected(_) => SamePermit(s, t);
    case Finish(_, _) => SamePermit(s, t);
    case DropSource(_) => SamePermit(s, t);
    case Answer(_) => SamePermit(s, t);
  }

  /** What a step may do to callers and workers as far as their pairing goes. */
  ghost predicate Allowed<R>(p: Phase<R>, q: Phase<R>) {
    || q == p
    || (p.Launched? && q.Waiting? && q.worker == p.worker)
    || (p.Waiting? && q.Done? && (q.outcome.Success? || q.outcome.TimedOut? || q.outcome.Unfinished?))
    || (p.Launched? && q.Done? && q.outcome.TimedOut?)
    || (p.Admitted? && (q.Holding? || q.Done?))
    || (p.Holding? && q.Done?)
  }

  /** No new worker, owners kept, phases moving as allowed: the pairing stays. */
  lemma KeepPaired<R>(s: State<R>, t: State<R>)
    requires Paired(s) && s.callers.Keys <= t.callers.Keys && s.workers.Keys == t.workers.Keys
    requires forall w :: w in s.workers ==> t.workers[w].owner == s.workers[w].owner
    requires forall c :: c in s.callers ==> Allowed(s.callers[c].phase, t.callers[c].phase)
    requires forall c :: c in t.callers && c !in s.callers ==> !StartedOne(t.callers[c].phase)
    ensures Paired(t)
  {}

  lemma SpawnPaired<R>(s: State<R>, c: Id, w: Id, compute: Id -> R)
    requires Paired(s) && Next(s, Spawn(c, w), compute).Some?
    ensures Paired(Next(s, Spawn(c, w), compute).value)
  {
    var t := Next(s, Spawn(c, w), compute).value;
    forall v | v in s.workers ensures s.workers[v].owner != c {
      assert MayOwn(s.callers[s.workers[v].owner].phase, v);
    }
    forall v | v in t.workers ensures t.workers[v].owner in t.callers
      && MayOwn(t.callers[t.workers[v].owner].phase, v) {
      if v != w { assert v in s.workers; }
    }
  }

  lemma PairedStep<R>(s: State<R>, step: Step, compute: Id -> R)
    requires Paired(s) && Next(s, step, compute).Some?
    ensures Paired(Next(s, step, compute).value)
  {
    hide Paired;
    var t := Next(s, step, compute).value;
    match step
    case Spawn(c, w) => SpawnPaired(s, c, w, compute);
    case _ => KeepPaired(s, t);
  }

  /** Successes that were there stay honest, and a new one comes with its own evidence. */
  lemma KeepHonest<R>(s: State<R>, t: State<R>, compute: Id -> R, c: Id, w: Id)
    requires HonestSuccess(s, compute) && s.clock <= t.clock
    requires forall v :: v in s.workers && s.workers[v].stage.Gone? ==> v in t.workers && t.workers[v] == s.workers[v]
    requires forall d :: d in t.callers && d != c && t.callers[d].phase.Done? && t.callers[d].phase.outcome.Success? ==>
               d in s.callers && s.callers[d] == t.callers[d]
    requires c in t.callers && t.callers[c].phase.Done? && t.callers[c].phase.outcome.Success? ==>
               || (c in s.callers && s.callers[c] == t.callers[c])
               || (&& t.callers[c].phase == Done(Success(compute(c)), t.clock)
                  && t.clock - t.callers[c].started < t.callers[c].budget
                   && w in t.workers && t.workers[w] == Worker(c, Gone(true)))
    ensures HonestSuccess(t, compute)
  {
    forall d | d in t.callers && t.callers[d].phase.Done? && t.callers[d].phase.outcome.Success?
      ensures exists v :: v in t.workers && t.workers[v] == Worker(d, Gone(true))
    {
      if d in s.callers && s.callers[d] == t.callers[d] {
        var v :| v in s.workers && s.workers[v] == Worker(d, Gone(true));
        assert t.workers[v] == Worker(d, Gone(true));
      } else {
        assert t.workers[w] == Worker(d, Gone(true));
      }
    }
  }

  /** Workers move; no caller does, and no worker that was gone. */
  lemma WorkerStep<R>(s: State<R>, step: Step, compute: Id -> R)
    requires HonestSuccess(s, compute) && Next(s, step, compute).Some?
    requires step.Finish? || step.DropSource? || step.DropPermit? || step.Answer?
    ensures HonestSuccess(Next(s, step, compute).value, compute)
  {
    hide HonestSuccess;
    KeepHonest(s, Next(s, step, compute).value, compute, 0, 0);
  }

  /** One caller arrives, takes the permit or ends without a result. */
  lemma CallerStep<R>(s: State<R>, step: Step, compute: Id -> R, c: Id)
    requires HonestSuccess(s, compute) && Next(s, step, compute).Some?
    requires step == Acquire(c) || step == SpawnFails(c) || step == CheckBudget(c) || step == ReceiveTimesOut(c)
             || step == Disconnected(c)
    ensures HonestSuccess(Next(s, step, compute).value, compute)
  {
    hide HonestSuccess;
    KeepHonest(s, Next(s, step, compute).value, compute, c, 0);
  }

  lemma SuccessStep<R>(s: State<R>, step: Step, compute: Id -> R)
    requires Paired(s) && HonestSuccess(s, compute) && Next(s, step, compute).Some?
    ensures HonestSuccess(Next(s, step, compute).value, compute)
  {
    hide HonestSuccess;
    var t := Next(s, step, compute).value;
    match step
    case Tick(_) => KeepHonest(s, t, compute, 0, 0);
    case Arrive(c, _) => KeepHonest(s, t, compute, c, 0);
    case Spawn(c, w) => KeepHonest(s, t, compute, c, w);
    case Receive(c) => KeepHonest(s, t, compute, c, s.callers[c].phase.worker);
    case Acquire(c) => CallerStep(s, step, compute, c);
    case SpawnFails(c) => CallerStep(s, step, compute, c);
    case CheckBudget(c) => CallerStep(s, step, compute, c);
    case ReceiveTimesOut(c) => CallerStep(s, step, compute, c);
    case Disconnected(c) => CallerStep(s, step, compute, c);
    case Finish(_, _) => WorkerStep(s, step, compute);
    case DropSource(_) => WorkerStep(s, step, compute);
    case DropPermit(_) => WorkerStep(s, step, compute);
    case Answer(_) => WorkerStep(s, step, compute);
  }

  lemma StepInv<R>(s: State<R>, step: Step, compute: Id -> R)
    requires Inv(s, compute) && Next(s, step, compute).Some?
    ensures Inv(Next(s, step, compute).value, compute)
  {
    PermitStep(s, step, compute);
    PairedStep(s, step, compute);
    SuccessStep(s, step, compute);
    hide OnePermit;
    hide Paired;
    hide HonestSuccess;
    hide Next;
  }

  /** Every state of every run keeps the invariant. */
  lemma {:induction false} RunInv<R>(s: State<R>, steps: seq<Step>, compute: Id -> R)
    requires Inv(s, compute) && Run(s, steps, compute).Some?
    ensures Inv(Run(s, steps, compute).value, compute)
    decreases |steps|
  {
    hide Next;
    hide Inv;
    if steps != [] {
      StepInv(s, steps[0], compute);
      RunInv(Next(s, steps[0], compute).value, steps[1..], compute);
    }
  }

  /** A finished caller stays as it is, so a busy or late caller never succeeds afterwards. */
  lemma {:induction false} OutcomesAreFinal<R>(s: State<R>, steps: seq<Step>, compute: Id -> R, c: Id)
    requires c in s.callers && s.callers[c].phase.Done? && Run(s, steps, compute).Some?
    ensures var t := Run(s, steps, compute).value; c in t.callers && t.callers[c] == s.callers[c]
    decreases |steps|
  {
    if steps != [] {
      var t := Next(s, steps[0], compute).value;
      assert c in t.callers && t.callers[c] == s.callers[c];
      hide Next;
      OutcomesAreFinal(t, steps[1..], compute, c);
    }
  }

  /** A step leaves a caller whose budget has run out without a result. */
  lemma LateStep<R>(s: State<R>, step: Step, compute: Id -> R, c: Id)
    requires c in s.callers && !s.callers[c].phase.Done? && s.clock - s.callers[c].started >= s.callers[c].budget
    requires Next(s, step, compute).Some?
    ensures var t := Next(s, step, compute).value;
            && c in t.callers && t.clock - t.callers[c].started >= t.callers[c].budget
            && (t.callers[c].phase.Done? ==> !t.callers[c].phase.outcome.Success?)
  {}

  /** A caller whose budget has run out is never answered with a result. */
  lemma {:induction false} TooLateNeverSucceeds<R>(s: State<R>, steps: seq<Step>, compute: Id -> R, c: Id)
    requires c in s.callers && !s.callers[c].phase.Done? && s.clock - s.callers[c].started >= s.callers[c].budget
    requires Run(s, steps, compute).Some?
    ensures var t := Run(s, steps, compute).value;
            c in t.callers && (t.callers[c].phase.Done? ==> !t.callers[c].phase.outcome.Success?)
    decreases |steps|
  {
    hide Next;
    if steps != [] {
      var t := Next(s, steps[0], compute).value;
      LateStep(s, steps[0], compute, c);
      if t.callers[c].phase.Done? {
        OutcomesAreFinal(t, steps[1..], compute, c);
      } else {
        TooLateNeverSucceeds(t, steps[1..], compute, c);
      }
    }
  }

  // ------------------------------------------------------------ the promises

  /** Over every run: the flag is up exactly while one permit exists; at most one worker holds
      source or tree, and only under the permit; a success is the caller's own worker's answer,
      inside its budget; a caller refused as busy started no worker. */
  lemma ProtocolIsSafe<R>(steps: seq<Step>, compute: Id -> R)
    requires Run(Init<R>(), steps, compute).Some?
    ensures var s := Run(Init<R>(), steps, compute).value;
            && (s.active <==> exists o :: Owns(s, o))
            && (forall o, p :: Owns(s, o) && Owns(s, p) ==> o == p)
            && (forall v, w ::
                 v in s.workers && w in s.workers && HasSource(s.workers[v].stage) && HasSource(s.workers[w].stage) ==>
                     v == w)
            && (forall w :: w in s.workers && HasSource(s.workers[w].stage) ==> s.active)
            && HonestSuccess(s, compute)
            && (forall c ::
                 c in s.callers && s.callers[c].phase.Done?
                   && (s.callers[c].phase.outcome.Busy? || s.callers[c].phase.outcome.NotStarted?) ==>
                  forall w :: w in s.workers ==> s.workers[w].owner != c)
  {
    InitInv(compute);
    RunInv(Init<R>(), steps, compute);
    var s := Run(Init<R>(), steps, compute).value;
    hide Next;
    hide Run;
    assert forall w :: w in s.workers && HasSource(s.workers[w].stage) ==> Owns(s, WorkerHolds(w));
    forall v, w | v in s.workers && w in s.workers && HasSource(s.workers[v].stage) && HasSource(s.workers[w].stage)
      ensures v == w
    {
      assert WorkerHolds(v) == WorkerHolds(w);
    }
    forall c, w | c in s.callers && s.callers[c].phase.Done?
      && (s.callers[c].phase.outcome.Busy? || s.callers[c].phase.outcome.NotStarted?)
                  && w in s.workers
      ensures s.workers[w].owner != c
    {
      assert MayOwn(s.callers[s.workers[w].owner].phase, w);
    }
  }

  /** Once no worker has the permit and no caller is about to start one, the next caller gets it. */
  lemma NextCallerAcquires<R>(steps: seq<Step>, compute: Id -> R, c: Id)
    requires Run(Init<R>(), steps, compute).Some?
    requires var s := Run(Init<R>(), steps, compute).value;
             && InPhase(s, c, Admitted)
             && (forall w :: w in s.workers ==> !HasPermit(s.workers[w].stage))
             && (forall d :: d in s.callers ==> !s.callers[d].phase.Holding?)
    ensures var s := Run(Init<R>(), steps, compute).value;
            Next(s, Acquire(c), compute) == Some(WithPhase(s, c, Holding).(active := true))
  {
    InitInv(compute);
    RunInv(Init<R>(), steps, compute);
    hide Run;
    var s := Run(Init<R>(), steps, compute).value;
    forall o ensures !Owns(s, o) {
      match o
      case CallerHolds(d) =>
      case WorkerHolds(w) =>
    }
  }

  /** The way of a caller until it waits, in every state of every run. One without a budget is told of the
      timeout as it arrives; one whose worker cannot be started is told so, and the permit is free for
      the next; one whose budget is over before it waits is told that, and any other one waits. */
  lemma CallersComeToWait<R>(steps: seq<Step>, compute: Id -> R, c: Id, budget: nat, next: Id)
    requires Run(Init<R>(), steps, compute).Some?
    ensures var s := Run(Init<R>(), steps, compute).value;
            && (c !in s.callers ==>
                  Next(s, Arrive(c, budget), compute) == Some(s.(callers := s.callers[c :=
                    Caller(s.clock, budget, if budget > 0 then Admitted else Done(TimedOut, s.clock))])))
            && (InPhase(s, c, Holding) ==>
                  && Next(s, SpawnFails(c), compute).Some?
                  && var t := Next(s, SpawnFails(c), compute).value;
                     && t == WithPhase(s, c, Done(NotStarted, s.clock)).(active := false)
                     && (InPhase(t, next, Admitted) ==>
                           Next(t, Acquire(next), compute) == Some(WithPhase(t, next, Holding).(active := true))))
            && (c in s.callers && s.callers[c].phase.Launched? ==>
                  Next(s, CheckBudget(c), compute) == Some(WithPhase(s, c,
                    if s.callers[c].budget < Elapsed(s, c) then Done(TimedOut, s.clock)
                    else Waiting(s.callers[c].phase.worker))))
  {
    hide Run;
  }

  /** In every state of every run: a caller whose worker has answered in time gets that answer, its
      own source's, and gets it now; a caller whose worker died is told so; one whose budget is over
      is told that; and in none of these cases can the caller do anything else. */
  lemma WaitingCallersAreAnswered<R>(steps: seq<Step>, compute: Id -> R, c: Id)
    requires Run(Init<R>(), steps, compute).Some? && IsWaiting(Run(Init<R>(), steps, compute).value, c)
    ensures var s := Run(Init<R>(), steps, compute).value;
            var g, late := s.workers[s.callers[c].phase.worker].stage, Elapsed(s, c) >= s.callers[c].budget;
            && Next(s, Receive(c), compute) ==
               (if g != Gone(true) then None
                else if late then Some(WithPhase(s, c, Done(TimedOut, s.clock)))
                else Some(WithPhase(s, c, Done(Success(compute(c)), s.clock))))
            && Next(s, Disconnected(c), compute) ==
               (if g == Gone(false) then Some(WithPhase(s, c, Done(Unfinished, s.clock))) else None)
            && Next(s, ReceiveTimesOut(c), compute) ==
               (if !g.Gone? && late then Some(WithPhase(s, c, Done(TimedOut, s.clock))) else None)
  {
    InitInv(compute);
    RunInv(Init<R>(), steps, compute);
    hide Run;
  }

  /** What an outcome without a result rests on, over every run: a timeout on a budget that has run
      out, and an unfinished analysis on the caller's own worker having died. */
  ghost predicate DueOutcomes<R>(s: State<R>) {
    && (forall c :: c in s.callers && s.callers[c].phase.Done? && s.callers[c].phase.outcome.TimedOut? ==>
          s.callers[c].phase.at - s.callers[c].started >= s.callers[c].budget)
    && (forall c :: c in s.callers && s.callers[c].phase.Done? && s.callers[c].phase.outcome.Unfinished? ==>
          exists w :: w in s.workers && s.workers[w] == Worker(c, Gone(false)))
  }

  lemma DueStep<R>(s: State<R>, step: Step, compute: Id -> R)
    requires Paired(s) && DueOutcomes(s) && Next(s, step, compute).Some?
    ensures DueOutcomes(Next(s, step, compute).value)
  {
    var t := Next(s, step, compute).value;
    GoneStays(s, step, compute);
    hide Next;
    forall c | c in t.callers && t.callers[c].phase.Done? && t.callers[c].phase.outcome.Unfinished?
      ensures exists w :: w in t.workers && t.workers[w] == Worker(c, Gone(false))
    {
      UnfinishedStep(s, step, compute, c);
    }
    forall c | c in t.callers && t.callers[c].phase.Done? && t.callers[c].phase.outcome.TimedOut?
      ensures t.callers[c].phase.at - t.callers[c].started >= t.callers[c].budget
    {
      TimeoutStep(s, step, compute, c);
    }
  }

  lemma GoneStays<R>(s: State<R>, step: Step, compute: Id -> R)
    requires Next(s, step, compute).Some?
    ensures var t := Next(s, step, compute).value;
            forall w :: w in s.workers && s.workers[w].stage.Gone? ==> w in t.workers && t.workers[w] == s.workers[w]
  {}

  lemma UnfinishedStep<R>(s: State<R>, step: Step, compute: Id -> R, c: Id)
    requires Paired(s) && DueOutcomes(s) && Next(s, step, compute).Some?
    requires InOutcome(Next(s, step, compute).value, c, Unfinished)
    ensures exists w :: w in s.workers && s.workers[w] == Worker(c, Gone(false))
  {
    if !InOutcome(s, c, Unfinished) {
      assert step == Disconnected(c);
      assert s.workers[s.callers[c].phase.worker] == Worker(c, Gone(false));
    }
  }

  lemma TimeoutStep<R>(s: State<R>, step: Step, compute: Id -> R, c: Id)
    requires DueOutcomes(s) && Next(s, step, compute).Some? && InOutcome(Next(s, step, compute).value, c, TimedOut)
    ensures var t := Next(s, step, compute).value;
            t.callers[c].phase.at - t.callers[c].started >= t.callers[c].budget
  {
    if !InOutcome(s, c, TimedOut) {
      assert c in s.callers || step.Arrive?;
    }
  }

  predicate InOutcome<R(==)>(s: State<R>, c: Id, o: Outcome<R>) {
    c in s.callers && s.callers[c].phase.Done? && s.callers[c].phase.outcome == o
  }

  lemma {:induction false} RunDue<R>(s: State<R>, steps: seq<Step>, compute: Id -> R)
    requires Inv(s, compute) && DueOutcomes(s) && Run(s, steps, compute).Some?
    ensures DueOutcomes(Run(s, steps, compute).value)
    decreases |steps|
  {
    hide Next;
    hide OnePermit;
    hide Paired;
    hide HonestSuccess;
    hide DueOutcomes;
    if steps != [] {
      StepInv(s, steps[0], compute);
      DueStep(s, steps[0], compute);
      RunDue(Next(s, steps[0], compute).value, steps[1..], compute);
    }
  }

  /** Nobody is told of a timeout before the budget is over, or of a dead worker without one. */
  lemma OutcomesAreDue<R>(steps: seq<Step>, compute: Id -> R)
    requires Run(Init<R>(), steps, compute).Some?
    ensures DueOutcomes(Run(Init<R>(), steps, compute).value)
  {
    InitInv(compute);
    hide Inv;
    hide Next;
    RunDue(Init<R>(), steps, compute);
  }

  /** A caller asks for the permit: it is told busy if and only if the permit is owned. */
  lemma AcquireDecides<R>(steps: seq<Step>, compute: Id -> R, c: Id)
    requires Run(Init<R>(), steps, compute).Some? && InPhase(Run(Init<R>(), steps, compute).value, c, Admitted)
    ensures var s := Run(Init<R>(), steps, compute).value;
            Next(s, Acquire(c), compute) ==
            if exists o :: Owns(s, o) then Some(WithPhase(s, c, Done(Busy, s.clock)))
            else Some(WithPhase(s, c, Holding).(active := true))
  {
    InitInv(compute);
    RunInv(Init<R>(), steps, compute);
    hide Run;
    hide Paired;
    hide HonestSuccess;
  }

  /** The steps that take a caller with the permit to its answer. */
  function ToTheAnswer(c: Id, w: Id): seq<Step> {
    [Spawn(c, w), CheckBudget(c), Finish(w, true), DropSource(w), DropPermit(w), Answer(w), Receive(c)]
  }

  lemma RunOne<R>(s: State<R>, step: Step, steps: seq<Step>, compute: Id -> R)
    requires Next(s, step, compute).Some?
    ensures Run(s, [step] + steps, compute) == Run(Next(s, step, compute).value, steps, compute)
  {
    hide Next;
    assert ([step] + steps)[0] == step && ([step] + steps)[1..] == steps;
  }

  /** `s` with one caller in another phase and its worker in some stage. */
  function At<R>(s: State<R>, active: bool, c: Id, p: Phase<R>, w: Id, g: Stage): State<R>
    requires c in s.callers
  {
    State(s.clock, active, s.callers[c := s.callers[c].(phase := p)], s.workers[w := Worker(c, g)])
  }

  lemma SpawnLeads<R>(s: State<R>, compute: Id -> R, c: Id, w: Id)
    requires InPhase(s, c, Holding) && w !in s.workers
    ensures Next(s, Spawn(c, w), compute) == Some(At(s, s.active, c, Launched(w), w, Working))
  {}

  lemma CallerLeads<R>(s: State<R>, active: bool, compute: Id -> R, c: Id, w: Id, g: Stage)
    requires c in s.callers && Elapsed(s, c) < s.callers[c].budget
    ensures Next(At(s, active, c, Launched(w), w, g), CheckBudget(c), compute)
         == Some(At(s, active, c, Waiting(w), w, g))
    ensures g == Gone(true) ==>
              Next(At(s, active, c, Waiting(w), w, g), Receive(c), compute)
              == Some(At(s, active, c, Done(Success(compute(c)), s.clock), w, g))
  {
    var m := s.callers[c := s.callers[c].(phase := Launched(w))];
    assert m[c := m[c].(phase := Waiting(w))] == s.callers[c := s.callers[c].(phase := Waiting(w))];
    var a, p := s.callers[c := s.callers[c].(phase := Waiting(w))], Done(Success(compute(c)), s.clock);
    assert a[c := a[c].(phase := p)] == s.callers[c := s.callers[c].(phase := p)];
  }

  lemma StageSet(ws: map<Id, Worker>, w: Id, c: Id, g: Stage, g': Stage)
    ensures ws[w := Worker(c, g)][w := Worker(c, g')] == ws[w := Worker(c, g')]
  {}

  lemma WorkerLeads<R>(s: State<R>, active: bool, compute: Id -> R, c: Id, p: Phase<R>, w: Id)
    requires c in s.callers
    ensures Next(At(s, active, c, p, w, Working), Finish(w, true), compute)
            == Some(At(s, active, c, p, w, Ending(true)))
    ensures Next(At(s, active, c, p, w, Ending(true)), DropSource(w), compute)
         == Some(At(s, active, c, p, w, SourceGone(true)))
    ensures Next(At(s, active, c, p, w, SourceGone(true)), DropPermit(w), compute)
         == Some(At(s, false, c, p, w, PermitGone(true)))
    ensures Next(At(s, active, c, p, w, PermitGone(true)), Answer(w), compute)
         == Some(At(s, active, c, p, w, Gone(true)))
  {
    StageSet(s.workers, w, c, Working, Ending(true));
    StageSet(s.workers, w, c, Ending(true), SourceGone(true));
    StageSet(s.workers, w, c, SourceGone(true), PermitGone(true));
    StageSet(s.workers, w, c, PermitGone(true), Gone(true));
  }

  /** Inside its budget, a caller that holds the permit can always go on to the result of its own
      source, which leaves the permit free and every other caller and worker alone. */
  lemma HoldersCanSucceed<R>(s: State<R>, compute: Id -> R, c: Id, w: Id)
    requires InPhase(s, c, Holding) && w !in s.workers && Elapsed(s, c) < s.callers[c].budget
    ensures Run(s, ToTheAnswer(c, w), compute) ==
            Some(State(s.clock, false, s.callers[c := s.callers[c].(phase := Done(Success(compute(c)), s.clock))],
                       s.workers[w := Worker(c, Gone(true))]))
  {
    var p, a := Waiting(w), s.active;
    SpawnLeads(s, compute, c, w);
    CallerLeads(s, a, compute, c, w, Working);
    WorkerLeads(s, a, compute, c, p, w);
    WorkerLeads(s, false, compute, c, p, w);
    CallerLeads(s, false, compute, c, w, Gone(true));
    ToTheAnswerIs(c, w);
    hide *;
    var rest := [Receive(c)] + [];
    var steps := [DropPermit(w)] + ([Answer(w)] + rest);
    RunOne(s, Spawn(c, w), [CheckBudget(c)] + ([Finish(w, true)] + ([DropSource(w)] + steps)), compute);
    RunOne(At(s, a, c, Launched(w), w, Working), CheckBudget(c), [Finish(w, true)] + ([DropSource(w)] + steps),
        compute);
    RunOne(At(s, a, c, p, w, Working), Finish(w, true), [DropSource(w)] + steps, compute);
    RunOne(At(s, a, c, p, w, Ending(true)), DropSource(w), steps, compute);
    RunOne(At(s, a, c, p, w, SourceGone(true)), DropPermit(w), [Answer(w)] + rest, compute);
    RunOne(At(s, false, c, p, w, PermitGone(true)), Answer(w), rest, compute);
    RunOne(At(s, false, c, p, w, Gone(true)), Receive(c), [], compute);
    NoStepsLeft(At(s, false, c, Done(Success(compute(c)), s.clock), w, Gone(true)), compute);
    AtIs(s, c, Done(Success(compute(c)), s.clock), w);
  }

  lemma AtIs<R>(s: State<R>, c: Id, p: Phase<R>, w: Id)
    requires c in s.callers
    ensures At(s, false, c, p, w, Gone(true)) ==
            State(s.clock, false, s.callers[c := s.callers[c].(phase := p)], s.workers[w := Worker(c, Gone(true))])
  {}

  lemma ToTheAnswerIs(c: Id, w: Id)
    ensures ToTheAnswer(c, w) ==
            [Spawn(c, w)] + ([CheckBudget(c)] + ([Finish(w, true)] + ([DropSource(w)]
            + ([DropPermit(w)] + ([Answer(w)] + ([Receive(c)] + []))))))
  {}

  lemma NoStepsLeft<R>(s: State<R>, compute: Id -> R)
    ensures Run(s, [], compute) == Some(s)
  {}

  /** The steps a worker with the permit still has to take until it is free. */
  function Remaining(g: Stage, w: Id, ok: bool): seq<Step>
    requires HasPermit(g)
  {
    match g
    case Working => [Finish(w, ok), DropSource(w), DropPermit(w)]
    case Ending(_) => [DropSource(w), DropPermit(w)]
    case SourceGone(_) => [DropPermit(w)]
  }

  /** A worker that holds the permit can always go on to give it up, whatever its caller does. */
  lemma {:induction false} WorkersCanFinish<R>(s: State<R>, compute: Id -> R, w: Id, ok: bool)
    requires w in s.workers && HasPermit(s.workers[w].stage)
    ensures var steps := Remaining(s.workers[w].stage, w, ok);
            && Run(s, steps, compute).Some?
            && !Run(s, steps, compute).value.active
            && Run(s, steps, compute).value.callers == s.callers
    decreases |Remaining(s.workers[w].stage, w, ok)|
  {
    var steps := Remaining(s.workers[w].stage, w, ok);
    var t := Next(s, steps[0], compute).value;
    if !s.workers[w].stage.SourceGone? {
      assert steps[1..] == Remaining(t.workers[w].stage, w, ok);
      WorkersCanFinish(t, compute, w, ok);
    } else {
      assert steps[1..] == [];
    }
  }

  /** The steps that a worker still has to take until it has answered, or has died without an answer. */
  function ToTheEnd(g: Stage, w: Id, ok: bool): seq<Step> {
    match g
    case Working => [Finish(w, ok), DropSource(w), DropPermit(w), Answer(w)]
    case Ending(_) => [DropSource(w), DropPermit(w), Answer(w)]
    case SourceGone(_) => [DropPermit(w), Answer(w)]
    case PermitGone(_) => [Answer(w)]
    case Gone(_) => []
  }

  predicate Ends(g: Stage, ok: bool) { if g.Working? then ok else g.ok }

  /** Every worker, also one that has panicked, can always go on to its end, and disturbs no one else. */
  lemma {:induction false} WorkersCanAnswer<R>(s: State<R>, compute: Id -> R, w: Id, ok: bool)
    requires w in s.workers
    ensures var g := s.workers[w].stage;
            Run(s, ToTheEnd(g, w, ok), compute) ==
            Some(State(s.clock, if HasPermit(g) then false else s.active, s.callers,
                       s.workers[w := Worker(s.workers[w].owner, Gone(Ends(g, ok)))]))
    decreases |ToTheEnd(s.workers[w].stage, w, ok)|
  {
    var g := s.workers[w].stage;
    var steps := ToTheEnd(g, w, ok);
    if steps == [] {
      assert s.workers[w := Worker(s.workers[w].owner, g)] == s.workers;
    } else {
      var t := Next(s, steps[0], compute).value;
      assert steps[1..] == ToTheEnd(t.workers[w].stage, w, ok);
      WorkersCanAnswer(t, compute, w, ok);
      StageSet(s.workers, w, s.workers[w].owner, t.workers[w].stage, Gone(Ends(g, ok)));
    }
  }

  /** Time passes in ticks, which change nothing else, and in no other step. */
  lemma OnlyTicksTakeTime<R>(s: State<R>, step: Step, compute: Id -> R, d: nat)
    requires Next(s, step, compute).Some?
    ensures Next(s, Tick(d), compute) == Some(State(s.clock + d, s.active, s.callers, s.workers))
    ensures !step.Tick? ==> Next(s, step, compute).value.clock == s.clock
  {}
}
