/** Interleaved preparations and cancellers over one provider. */
module NativeContext {
  // A preparation takes its number without the lock, then checks its epoch and enters inside one
  // locked section; the epoch itself can move while that section is open. A canceller moves the
  // epoch without the lock and cancels the active preparations in a later locked section.

  import opened Wrappers
  import opened ContextProvider

  datatype Phase = Queued | Admitting | Held | Dropping | Done

  datatype Job = Job(scope: Scope, epoch: nat, phase: Phase)

  /** `Swept` is a cancel-all that has returned; `Drained` has also seen no preparation in flight. */
  datatype Stage = Bumped | Swept | Drained

  datatype Canceller = Canceller(epoch: nat, stage: Stage)

  /** A job's position in `jobs` is its admission number. `holder` is the job inside a locked section. */
  datatype World = World(shared: Shared, jobs: seq<Job>, cancellers: seq<Canceller>, holder: Option<nat>)

  datatype Event =
    | Begin(scope: Scope, epoch: nat)
    | CheckEpoch(job: nat)
    | EnterLease(job: nat)
    | PublishResult(job: nat, request: string, size: nat)
    | SetDropFlag(job: nat)
    | ReleaseLease(job: nat)
    | Cancel(scope: Scope)
    | MoveEpoch
    | CancelAllActive(canceller: nat)
    | SeeIdle(canceller: nat)

  function Init(): World {
    World(Shared(map[], 0, [], {}, 0, 0), [], [], None)
  }

  predicate InPhase(w: World, job: nat, phase: Phase) {
    job < |w.jobs| && w.jobs[job].phase == phase
  }

  function Move(w: World, job: nat, phase: Phase): World
    requires job < |w.jobs|
  {
    w.(jobs := w.jobs[job := w.jobs[job].(phase := phase)])
  }

  /** One step; a step that is not possible changes nothing. */
  function Next(w: World, event: Event): World {
    var s := w.shared;
    match event
    case Begin(scope, epoch) =>
      World(s.(sequence := s.sequence + 1), w.jobs + [Job(scope, epoch, Queued)], w.cancellers, w.holder)
    case CheckEpoch(job) =>
      if !InPhase(w, job, Queued) || w.holder.Some? then w
      else if w.jobs[job].epoch != s.epoch then Move(w, job, Done)
      else Move(w, job, Admitting).(holder := Some(job))
    case EnterLease(job) =>
      if !InPhase(w, job, Admitting) then w
      else
        var (entered, admitted) := Enter(s, w.jobs[job].scope, job);
        Move(w, job, if admitted then Held else Done).(shared := entered, holder := None)
    case PublishResult(job, request, size) =>
      if !InPhase(w, job, Held) || w.holder.Some? then w
      else w.(shared := Publish(s, job, Key(w.jobs[job].scope, request), size).0)
    case SetDropFlag(job) =>
      if !InPhase(w, job, Held) then w
      else Move(w, job, Dropping).(shared := s.(cancelled := s.cancelled + {job}))
    case ReleaseLease(job) =>
      if !InPhase(w, job, Dropping) || w.holder.Some? then w
      else Move(w, job, Done).(shared := Release(s, w.jobs[job].scope, job))
    case Cancel(scope) =>
      if w.holder.Some? then w else w.(shared := CancelScope(s, scope))
    case MoveEpoch =>
      w.(shared := s.(epoch := s.epoch + 1), cancellers := w.cancellers + [Canceller(s.epoch + 1, Bumped)])
    case CancelAllActive(c) =>
      if c >= |w.cancellers| || w.cancellers[c].stage != Bumped || w.holder.Some? then w
      else w.(shared := CancelActive(s), cancellers := w.cancellers[c := w.cancellers[c].(stage := Swept)])
    case SeeIdle(c) =>
      if c >= |w.cancellers| || w.cancellers[c].stage != Swept || w.holder.Some? || s.inFlight != 0 then w
      else w.(cancellers := w.cancellers[c := w.cancellers[c].(stage := Drained)])
  }

  function Run(w: World, events: seq<Event>): World {
    if events == [] then w else Next(Run(w, events[..|events| - 1]), events[|events| - 1])
  }

  // ---------- The invariant ----------

  predicate Live(job: Job) {
    job.phase == Held || job.phase == Dropping
  }

  function LiveJobs(jobs: seq<Job>): set<nat> {
    set i: nat | i < |jobs| && Live(jobs[i])
  }

  ghost predicate ActiveEntriesLive(active: map<Scope, nat>, jobs: seq<Job>) {
    forall scope | scope in active ::
      active[scope] < |jobs| && Live(jobs[active[scope]]) && jobs[active[scope]].scope == scope
  }

  /** A live preparation that its scope no longer names has been cancelled. */
  ghost predicate SupersededCancelled(active: map<Scope, nat>, cancelled: set<nat>, jobs: seq<Job>) {
    forall i | 0 <= i < |jobs| && Live(jobs[i]) ::
      (jobs[i].scope in active && active[jobs[i].scope] == i) || i in cancelled
  }

  ghost predicate DroppedCancelled(cancelled: set<nat>, jobs: seq<Job>) {
    forall i | 0 <= i < |jobs| && jobs[i].phase == Dropping :: i in cancelled
  }

  ghost predicate OneHolder(jobs: seq<Job>, holder: Option<nat>) {
    && (forall i | 0 <= i < |jobs| :: jobs[i].phase == Admitting <==> holder == Some(i))
    && (holder.Some? ==> holder.value < |jobs|)
  }

  /** After a cancel-all has returned, an older preparation is cancelled, over, or can never be admitted. */
  ghost predicate SweptPast(epoch: nat, cancelled: set<nat>, jobs: seq<Job>, c: Canceller) {
    && c.epoch <= epoch
    && (c.stage != Bumped ==>
          forall i | 0 <= i < |jobs| && jobs[i].epoch < c.epoch ::
            jobs[i].phase != Admitting && (Live(jobs[i]) ==> i in cancelled))
    && (c.stage == Drained ==> forall i | 0 <= i < |jobs| && jobs[i].epoch < c.epoch :: !Live(jobs[i]))
  }

  ghost predicate AllSweptPast(epoch: nat, cancelled: set<nat>, jobs: seq<Job>, cancellers: seq<Canceller>) {
    forall c | 0 <= c < |cancellers| :: SweptPast(epoch, cancelled, jobs, cancellers[c])
  }

  ghost predicate OwnersKnown(cache: seq<Entry>, jobs: seq<Job>) {
    forall e | e in cache :: e.owner < |jobs| && jobs[e.owner].scope == e.key.scope
  }

  ghost predicate Inv(w: World) {
    && w.shared.sequence == |w.jobs|
    && w.shared.inFlight == |LiveJobs(w.jobs)| <= MAX_IN_FLIGHT
    && ActiveEntriesLive(w.shared.active, w.jobs)
    && SupersededCancelled(w.shared.active, w.shared.cancelled, w.jobs)
    && DroppedCancelled(w.shared.cancelled, w.jobs)
    && OneHolder(w.jobs, w.holder)
    && AllSweptPast(w.shared.epoch, w.shared.cancelled, w.jobs, w.cancellers)
    && CacheSound(w.shared.cache)
    && OwnersKnown(w.shared.cache, w.jobs)
  }

  lemma LiveCount(jobs: seq<Job>, job: nat, phase: Phase)
    requires job < |jobs|
    ensures var moved := jobs[job := jobs[job].(phase := phase)];
            |LiveJobs(moved)| == |LiveJobs(jobs)| - (if Live(jobs[job]) then 1 else 0)
                                 + (if Live(moved[job]) then 1 else 0)
  {
    var moved := jobs[job := jobs[job].(phase := phase)];
    CountChanges(LiveJobs(jobs), LiveJobs(moved), job);
  }

  lemma CountChanges(a: set<nat>, b: set<nat>, x: nat)
    requires forall y | y != x :: y in a <==> y in b
    ensures |b| == |a| - (if x in a then 1 else 0) + (if x in b then 1 else 0)
  {
    var others := a - {x};
    assert others == b - {x};
    assert a == others + if x in a then {x} else {};
    assert b == others + if x in b then {x} else {};
  }

  lemma EnterKeeps(w: World, job: nat)
    requires Inv(w) && InPhase(w, job, Admitting)
    ensures Inv(Next(w, EnterLease(job)))
  {
    var after := Next(w, EnterLease(job));
    var scope := w.jobs[job].scope;
    LiveCount(w.jobs, job, after.jobs[job].phase);
    assert w.holder == Some(job);
    forall i | 0 <= i < |after.jobs| && Live(after.jobs[i])
      ensures (after.jobs[i].scope in after.shared.active && after.shared.active[after.jobs[i].scope] == i)
              || i in after.shared.cancelled
    {
      if i != job && after.jobs[i].scope == scope { assert Live(w.jobs[i]); }
    }
    forall c | 0 <= c < |after.cancellers| ensures SweptPast(after.shared.epoch, after.shared.cancelled, after.jobs, after.cancellers[c]) {
      assert SweptPast(w.shared.epoch, w.shared.cancelled, w.jobs, w.cancellers[c]);
    }
  }

  lemma ReleaseKeeps(w: World, job: nat)
    requires Inv(w) && InPhase(w, job, Dropping) && w.holder.None?
    ensures Inv(Next(w, ReleaseLease(job)))
  {
    var after := Next(w, ReleaseLease(job));
    LiveCount(w.jobs, job, Done);
    assert job in LiveJobs(w.jobs);
    forall c | 0 <= c < |after.cancellers| ensures SweptPast(after.shared.epoch, after.shared.cancelled, after.jobs, after.cancellers[c]) {
      assert SweptPast(w.shared.epoch, w.shared.cancelled, w.jobs, w.cancellers[c]);
    }
  }

  lemma PublishKeeps(w: World, job: nat, request: string, size: nat)
    requires Inv(w) && InPhase(w, job, Held) && w.holder.None?
    ensures Inv(Next(w, PublishResult(job, request, size)))
  {
    StoreIsSound(w.shared.cache, Entry(Key(w.jobs[job].scope, request), job, size));
  }

  /** Marking more preparations as cancelled breaks nothing. */
  lemma MoreCancelled(w: World, flags: set<nat>)
    requires Inv(w)
    ensures Inv(w.(shared := w.shared.(cancelled := w.shared.cancelled + flags)))
  {
    var after := w.(shared := w.shared.(cancelled := w.shared.cancelled + flags));
    forall c | 0 <= c < |after.cancellers| ensures SweptPast(after.shared.epoch, after.shared.cancelled, after.jobs, after.cancellers[c]) {
      assert SweptPast(w.shared.epoch, w.shared.cancelled, w.jobs, w.cancellers[c]);
    }
  }

  lemma CancelAllKeeps(w: World, c: nat)
    requires Inv(w) && c < |w.cancellers| && w.cancellers[c].stage == Bumped && w.holder.None?
    ensures Inv(Next(w, CancelAllActive(c)))
  {
    var after := Next(w, CancelAllActive(c));
    MoreCancelled(w, w.shared.active.Values);
    forall i | 0 <= i < |after.jobs| && Live(after.jobs[i]) ensures i in after.shared.cancelled {}
    forall k | 0 <= k < |after.cancellers| ensures SweptPast(after.shared.epoch, after.shared.cancelled, after.jobs, after.cancellers[k]) {
      assert SweptPast(w.shared.epoch, w.shared.cancelled, w.jobs, w.cancellers[k]);
    }
  }

  lemma IdleKeeps(w: World, c: nat)
    requires Inv(w) && c < |w.cancellers| && w.cancellers[c].stage == Swept && w.holder.None? && w.shared.inFlight == 0
    ensures Inv(Next(w, SeeIdle(c)))
  {
    var after := Next(w, SeeIdle(c));
    forall i | 0 <= i < |w.jobs| ensures !Live(w.jobs[i]) { assert i !in LiveJobs(w.jobs); }
    forall k | 0 <= k < |after.cancellers| ensures SweptPast(after.shared.epoch, after.shared.cancelled, after.jobs, after.cancellers[k]) {
      assert SweptPast(w.shared.epoch, w.shared.cancelled, w.jobs, w.cancellers[k]);
    }
  }

  lemma CheckEpochKeeps(w: World, job: nat)
    requires Inv(w) && InPhase(w, job, Queued) && w.holder.None?
    ensures Inv(Next(w, CheckEpoch(job)))
  {
    var after := Next(w, CheckEpoch(job));
    LiveCount(w.jobs, job, after.jobs[job].phase);
    forall c | 0 <= c < |after.cancellers| ensures SweptPast(after.shared.epoch, after.shared.cancelled, after.jobs, after.cancellers[c]) {
      assert SweptPast(w.shared.epoch, w.shared.cancelled, w.jobs, w.cancellers[c]);
    }
  }

  lemma DropFlagKeeps(w: World, job: nat)
    requires Inv(w) && InPhase(w, job, Held)
    ensures Inv(Next(w, SetDropFlag(job)))
  {
    var after := Next(w, SetDropFlag(job));
    LiveCount(w.jobs, job, Dropping);
    forall c | 0 <= c < |after.cancellers| ensures SweptPast(after.shared.epoch, after.shared.cancelled, after.jobs, after.cancellers[c]) {
      assert SweptPast(w.shared.epoch, w.shared.cancelled, w.jobs, w.cancellers[c]);
    }
  }

  lemma BeginKeeps(w: World, scope: Scope, epoch: nat)
    requires Inv(w)
    ensures Inv(Next(w, Begin(scope, epoch)))
  {
    var after := Next(w, Begin(scope, epoch));
    assert LiveJobs(after.jobs) == LiveJobs(w.jobs);
    forall c | 0 <= c < |after.cancellers| ensures SweptPast(after.shared.epoch, after.shared.cancelled, after.jobs, after.cancellers[c]) {
      assert SweptPast(w.shared.epoch, w.shared.cancelled, w.jobs, w.cancellers[c]);
    }
  }

  lemma MoveEpochKeeps(w: World)
    requires Inv(w)
    ensures Inv(Next(w, MoveEpoch))
  {
    var after := Next(w, MoveEpoch);
    forall c | 0 <= c < |after.cancellers| ensures SweptPast(after.shared.epoch, after.shared.cancelled, after.jobs, after.cancellers[c]) {
      if c < |w.cancellers| { assert SweptPast(w.shared.epoch, w.shared.cancelled, w.jobs, w.cancellers[c]); }
    }
  }

  /** Every step of every participant keeps the whole invariant. */
  lemma StepKeeps(w: World, event: Event)
    requires Inv(w)
    ensures Inv(Next(w, event))
  {
    match event
    case Begin(scope, epoch) => BeginKeeps(w, scope, epoch);
    case CheckEpoch(job) => if InPhase(w, job, Queued) && w.holder.None? { CheckEpochKeeps(w, job); }
    case EnterLease(job) => if InPhase(w, job, Admitting) { EnterKeeps(w, job); }
    case PublishResult(job, request, size) =>
      if InPhase(w, job, Held) && w.holder.None? { PublishKeeps(w, job, request, size); }
    case SetDropFlag(job) => if InPhase(w, job, Held) { DropFlagKeeps(w, job); }
    case ReleaseLease(job) => if InPhase(w, job, Dropping) && w.holder.None? { ReleaseKeeps(w, job); }
    case Cancel(scope) => if scope in w.shared.active { MoreCancelled(w, {w.shared.active[scope]}); }
    case MoveEpoch => MoveEpochKeeps(w);
    case CancelAllActive(c) =>
      if c < |w.cancellers| && w.cancellers[c].stage == Bumped && w.holder.None? { CancelAllKeeps(w, c); }
    case SeeIdle(c) =>
      if c < |w.cancellers| && w.cancellers[c].stage == Swept && w.holder.None? && w.shared.inFlight == 0 {
        IdleKeeps(w, c);
      }
  }

  lemma {:induction false} RunKeeps(w: World, events: seq<Event>)
    requires Inv(w)
    ensures Inv(Run(w, events))
    decreases |events|
  {
    if events != [] {
      RunKeeps(w, events[..|events| - 1]);
      StepKeeps(Run(w, events[..|events| - 1]), events[|events| - 1]);
    }
  }

  // ---------- Whole runs ----------

  /** What no step takes back. */
  ghost predicate Evolves(w: World, v: World) {
    && |w.jobs| <= |v.jobs| && w.shared.cancelled <= v.shared.cancelled && w.shared.epoch <= v.shared.epoch
    && (forall i | 0 <= i < |w.jobs| :: v.jobs[i].scope == w.jobs[i].scope && v.jobs[i].epoch == w.jobs[i].epoch)
    && |w.cancellers| <= |v.cancellers|
    && (forall c | 0 <= c < |w.cancellers| ::
          && v.cancellers[c].epoch == w.cancellers[c].epoch
          && (w.cancellers[c].stage != Bumped ==> v.cancellers[c].stage != Bumped)
          && (w.cancellers[c].stage == Drained ==> v.cancellers[c].stage == Drained))
  }

  lemma StepEvolves(w: World, event: Event)
    ensures Evolves(w, Next(w, event))
  {}

  lemma EvolvesFurther(u: World, w: World, v: World)
    requires Evolves(u, w) && Evolves(w, v)
    ensures Evolves(u, v)
  {
    forall c | 0 <= c < |u.cancellers|
      ensures v.cancellers[c].epoch == u.cancellers[c].epoch
      ensures u.cancellers[c].stage != Bumped ==> v.cancellers[c].stage != Bumped
      ensures u.cancellers[c].stage == Drained ==> v.cancellers[c].stage == Drained
    {
      assert w.cancellers[c].epoch == u.cancellers[c].epoch;
    }
  }

  lemma {:induction false} RunEvolves(w: World, events: seq<Event>)
    ensures Evolves(w, Run(w, events))
    decreases |events|
  {
    if events != [] {
      var earlier := Run(w, events[..|events| - 1]);
      RunEvolves(w, events[..|events| - 1]);
      StepEvolves(earlier, events[|events| - 1]);
      EvolvesFurther(w, earlier, Run(w, events));
    }
  }

  /** In every run from the start: live leases are counted exactly, are at most two, and a superseded one is cancelled. */
  lemma LeasesAreBounded(events: seq<Event>)
    ensures var w := Run(Init(), events);
            && w.shared.inFlight == |LiveJobs(w.jobs)| <= 2
            && SupersededCancelled(w.shared.active, w.shared.cancelled, w.jobs) && ActiveEntriesLive(w.shared.active, w.jobs)
            && CacheSound(w.shared.cache)
  {
    assert LiveJobs(Init().jobs) == {};
    RunKeeps(Init(), events);
  }

  /** Once a cancel-all has returned, no older preparation is live and uncancelled in any later state. */
  lemma CancelAllIsFinal(before: seq<Event>, c: nat, later: seq<Event>)
    requires c < |Run(Init(), before).cancellers| && Run(Init(), before).cancellers[c].stage != Bumped
    ensures var w := Run(Run(Init(), before), later);
            forall i | 0 <= i < |w.jobs| && w.jobs[i].epoch < Run(Init(), before).cancellers[c].epoch ::
              w.jobs[i].phase != Admitting && (Live(w.jobs[i]) ==> i in w.shared.cancelled)
  {
    var start := Run(Init(), before);
    assert LiveJobs(Init().jobs) == {};
    RunKeeps(Init(), before);
    RunKeeps(start, later);
    RunEvolves(start, later);
    var w := Run(start, later);
    assert SweptPast(w.shared.epoch, w.shared.cancelled, w.jobs, w.cancellers[c]);
  }

  /** Once a drain has succeeded, no older preparation is live in any later state. */
  lemma DrainIsFinal(before: seq<Event>, c: nat, later: seq<Event>)
    requires c < |Run(Init(), before).cancellers| && Run(Init(), before).cancellers[c].stage == Drained
    ensures var w := Run(Run(Init(), before), later);
            forall i | 0 <= i < |w.jobs| && w.jobs[i].epoch < Run(Init(), before).cancellers[c].epoch :: !Live(w.jobs[i])
  {
    var start := Run(Init(), before);
    assert LiveJobs(Init().jobs) == {};
    RunKeeps(Init(), before);
    RunKeeps(start, later);
    RunEvolves(start, later);
    var w := Run(start, later);
    assert SweptPast(w.shared.epoch, w.shared.cancelled, w.jobs, w.cancellers[c]);
  }

  /** An entry that a step adds comes from the current, uncancelled, live lease of its own scope. */
  lemma StepPublishes(w: World, event: Event, e: Entry)
    requires Inv(w) && e in Next(w, event).shared.cache && e !in w.shared.cache
    ensures event.PublishResult? && event.job == e.owner && event.size == e.size
    ensures e.owner < |w.jobs| && w.jobs[e.owner].phase == Held && w.jobs[e.owner].scope == e.key.scope
    ensures e.key.scope in w.shared.active && w.shared.active[e.key.scope] == e.owner && e.owner !in w.shared.cancelled
  {
    if event.PublishResult? && InPhase(w, event.job, Held) {
      StoreIsSound(w.shared.cache, Entry(Key(w.jobs[event.job].scope, event.request), event.job, event.size));
    }
  }

  lemma StepPublishesNothingStale(w: World, c: nat, event: Event, e: Entry)
    requires Inv(w) && c < |w.cancellers| && w.cancellers[c].stage != Bumped
    requires e in Next(w, event).shared.cache && e !in w.shared.cache
    ensures e.owner < |w.jobs| && w.jobs[e.owner].epoch >= w.cancellers[c].epoch
  {
    StepPublishes(w, event, e);
    assert SweptPast(w.shared.epoch, w.shared.cancelled, w.jobs, w.cancellers[c]);
  }

  /** After a cancel-all has returned, nothing from an older preparation enters the cache any more. */
  lemma {:induction false} NothingStalePublished(w: World, c: nat, events: seq<Event>, e: Entry)
    requires Inv(w) && c < |w.cancellers| && w.cancellers[c].stage != Bumped
    requires e in Run(w, events).shared.cache && e !in w.shared.cache
    ensures e.owner < |Run(w, events).jobs| && Run(w, events).jobs[e.owner].epoch >= w.cancellers[c].epoch
    decreases |events|
  {
    if events != [] {
      var earlier := Run(w, events[..|events| - 1]);
      RunKeeps(w, events[..|events| - 1]);
      RunEvolves(w, events[..|events| - 1]);
      StepEvolves(earlier, events[|events| - 1]);
      if e in earlier.shared.cache {
        NothingStalePublished(w, c, events[..|events| - 1], e);
      } else {
        StepPublishesNothingStale(earlier, c, events[|events| - 1], e);
      }
    }
  }
}
