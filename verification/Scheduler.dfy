/** The scheduler as interleaved steps: callers of Start, Stop, AddCollector and RemoveCollector
    take turns on one mutex, while job goroutines run beside them without it.

    Which ready branch a select takes, and how long anything lasts, is left open: every enabled step
    may come next. */
module Scheduler {

  /** Where a job goroutine is: running its collector, waiting in select, or returned but not yet
      past its deferred wg.Done. */
  datatype JobAt = Collecting | Selecting | Leaving

  /** `cancellable`: started by Start with the caller's context, not by AddCollector, which uses the
      background context. */
  datatype Job = Job(collector: string, cancellable: bool, at: JobAt)

  /** Who holds the mutex.  `done` is the channel that Stop's helper closes after wg.Wait. */
  datatype Holder = Free | Starting(todo: seq<string>) | Closing | Waiting(done: bool)

  /** `starts`, `finished` and `closes` count calls of Start that took effect, calls of Stop that
      took effect and returned, and executions of close(stopCh).  `quiet` holds from a Stop that
      returned by its done branch until the next Start that takes effect. */
  datatype Sched = Sched(
    running: bool, collectors: seq<string>, closed: bool, wg: int,
    jobs: map<nat, Job>, next: nat, holder: Holder, cancelled: bool, panicked: bool,
    starts: nat, finished: nat, closes: nat, quiet: bool)

  datatype Action =
    | CallStart | Spawn | StartReturns
    | CallStop | CloseStopCh | WaitReturns | StopDone | StopTimeout
    | Add(name: string) | Remove(name: string) | Cancel
    | Collected(j: nat) | Ticks(j: nat) | SeesStop(j: nat) | SeesCancel(j: nat) | WgDone(j: nat)

  function New(collectors: seq<string>): Sched {
    Sched(false, collectors, false, 0, map[], 0, Free, false, false, 0, 0, 0, false)
  }

  /** The removal loop of RemoveCollector: the first collector of that name goes. */
  function RemoveFirst(collectors: seq<string>, name: string): seq<string> {
    if collectors == [] then []
    else if collectors[0] == name then collectors[1..]
    else [collectors[0]] + RemoveFirst(collectors[1..], name)
  }

  predicate Enabled(s: Sched, a: Action) {
    !s.panicked &&
    match a
    case CallStart => s.holder.Free?
    case Spawn => s.holder.Starting? && s.holder.todo != []
    case StartReturns => s.holder.Starting? && s.holder.todo == []
    case CallStop => s.holder.Free?
    case CloseStopCh => s.holder.Closing?
    case WaitReturns => s.holder.Waiting? && s.wg == 0
    case StopDone => s.holder.Waiting? && s.holder.done
    case StopTimeout => s.holder.Waiting?
    case Add(_) => s.holder.Free?
    case Remove(_) => s.holder.Free?
    case Cancel => true
    case Collected(j) => j in s.jobs && s.jobs[j].at.Collecting?
    case Ticks(j) => j in s.jobs && s.jobs[j].at.Selecting?
    case SeesStop(j) => j in s.jobs && s.jobs[j].at.Selecting? && s.closed
    case SeesCancel(j) => j in s.jobs && s.jobs[j].at.Selecting? && s.jobs[j].cancellable && s.cancelled
    case WgDone(j) => j in s.jobs && s.jobs[j].at.Leaving?
  }

  /** startCollectorJob: one more in the wait group, one more goroutine, collecting at once. */
  function Launched(s: Sched, name: string, cancellable: bool): Sched {
    s.(wg := s.wg + 1, jobs := s.jobs[s.next := Job(name, cancellable, Collecting)], next := s.next + 1)
  }

  function MovedTo(s: Sched, j: nat, at: JobAt): Sched
    requires j in s.jobs
  {
    s.(jobs := s.jobs[j := s.jobs[j].(at := at)])
  }

  function Apply(s: Sched, a: Action): Sched
    requires Enabled(s, a)
  {
    match a
    case CallStart =>
      if s.running then s
      else s.(running := true, holder := Starting(s.collectors), starts := s.starts + 1, quiet := false)
    case Spawn => Launched(s, s.holder.todo[0], true).(holder := Starting(s.holder.todo[1..]))
    case StartReturns => s.(holder := Free)
    case CallStop => if s.running then s.(holder := Closing) else s
    case CloseStopCh =>
      if s.closed then s.(panicked := true, closes := s.closes + 1)
      else s.(closed := true, closes := s.closes + 1, holder := Waiting(false))
    case WaitReturns => s.(holder := Waiting(true))
    case StopDone => s.(running := false, holder := Free, finished := s.finished + 1, quiet := true)
    case StopTimeout => s.(running := false, holder := Free, finished := s.finished + 1)
    case Add(name) =>
      var t := s.(collectors := s.collectors + [name]);
      if s.running then Launched(t, name, false) else t
    case Remove(name) => s.(collectors := RemoveFirst(s.collectors, name))
    case Cancel => s.(cancelled := true)
    case Collected(j) => MovedTo(s, j, Selecting)
    case Ticks(j) => MovedTo(s, j, Collecting)
    case SeesStop(j) => MovedTo(s, j, Leaving)
    case SeesCancel(j) => MovedTo(s, j, Leaving)
    case WgDone(j) => s.(wg := s.wg - 1, jobs := s.jobs - {j})
  }

  ghost predicate Steps(s: Sched, acts: seq<Action>, z: Sched)
    decreases |acts|
  {
    if acts == [] then s == z else Enabled(s, acts[0]) && Steps(Apply(s, acts[0]), acts[1..], z)
  }

  ghost predicate Reachable(z: Sched) {
    exists collectors, acts :: Steps(New(collectors), acts, z)
  }

  // ----- what every interleaving keeps -----

  ghost predicate Inv(s: Sched) {
    && s.wg == |s.jobs|
    && (forall j :: j in s.jobs ==> j < s.next)
    // the lock protocol
    && (s.holder.Starting? || s.holder.Closing? || s.holder.Waiting? ==> s.running)
    && s.starts == s.finished + (if s.running then 1 else 0)
    && (s.holder.Waiting? && s.holder.done ==> s.jobs == map[])
    // the stop channel
    && (s.closed <==> s.closes >= 1)
    && (s.panicked <==> s.closes >= 2)
    && (s.panicked ==> s.holder.Closing?)
    && s.closes == s.finished + (if s.holder.Waiting? || s.panicked then 1 else 0)
    // jobs
    && (s.quiet ==> s.jobs == map[] && !s.running && s.holder.Free?)
    && (forall j :: j in s.jobs && s.jobs[j].at.Leaving? ==> s.closed || s.jobs[j].cancellable)
  }

  predicate IsJobStep(a: Action) {
    a.Collected? || a.Ticks? || a.SeesStop? || a.SeesCancel? || a.WgDone?
  }

  lemma {:induction false} JobStepKeepsInv(s: Sched, a: Action)
    requires Inv(s) && Enabled(s, a) && IsJobStep(a)
    ensures Inv(Apply(s, a))
  {
  }

  lemma {:induction false} CallStepKeepsInv(s: Sched, a: Action)
    requires Inv(s) && Enabled(s, a) && !IsJobStep(a)
    ensures Inv(Apply(s, a))
  {
  }

  lemma {:induction false} StepKeepsInv(s: Sched, a: Action)
    requires Inv(s) && Enabled(s, a)
    ensures Inv(Apply(s, a))
  {
    if IsJobStep(a) { JobStepKeepsInv(s, a); } else { CallStepKeepsInv(s, a); }
  }

  lemma {:induction false} StepsKeepInv(s: Sched, acts: seq<Action>, z: Sched)
    requires Inv(s) && Steps(s, acts, z)
    ensures Inv(z)
    decreases |acts|
  {
    if acts != [] {
      StepKeepsInv(s, acts[0]);
      StepsKeepInv(Apply(s, acts[0]), acts[1..], z);
    }
  }

  lemma {:induction false} ReachableInv(z: Sched)
    requires Reachable(z)
    ensures Inv(z)
  {
    var collectors, acts :| Steps(New(collectors), acts, z);
    StepsKeepInv(New(collectors), acts, z);
  }

  /** Callers wait for the mutex and for nothing else, a waiting Stop may give up at any time, and the
      jobs never need the mutex. */
  lemma {:induction false} OnlyCallersLock(s: Sched, h: Holder, name: string, a: Action)
    requires !s.panicked
    ensures Enabled(s, CallStart) <==> s.holder == Free
    ensures Enabled(s, CallStop) <==> s.holder == Free
    ensures Enabled(s, Add(name)) <==> s.holder == Free
    ensures Enabled(s, Remove(name)) <==> s.holder == Free
    ensures s.holder.Waiting? ==> Enabled(s, StopTimeout) && Apply(s, StopTimeout).holder == Free
    ensures Enabled(s, Cancel)
    ensures IsJobStep(a) ==> (Enabled(s, a) <==> Enabled(s.(holder := h), a))
  {
  }

  /** Whatever was stopped or cancelled, a job whose collector returned may run it again. */
  lemma {:induction false} JobMayRunAgain(s: Sched, j: nat)
    requires j in s.jobs && s.jobs[j].at.Collecting? && !s.panicked
    ensures Steps(s, [Collected(j), Ticks(j)], s)
  {
    var t := Apply(s, Collected(j));
    assert Apply(t, Ticks(j)).jobs == s.jobs;
    assert [Collected(j), Ticks(j)][1..] == [Ticks(j)] && [Ticks(j)][1..] == [];
    assert Steps(t, [Ticks(j)], s) by { assert Steps(Apply(t, Ticks(j)), [], s); }
  }

  /** In every interleaving the wait group counts exactly the live jobs. */
  lemma {:induction false} WaitGroupCountsJobs(z: Sched)
    requires Reachable(z)
    ensures z.wg == |z.jobs|
  {
    ReachableInv(z);
  }

  /** After Stop returns by its done branch no job is live, so no collector runs, until another
      Start takes effect: adding and removing collectors in between starts nothing. */
  lemma {:induction false} QuietAfterStop(s: Sched, acts: seq<Action>, z: Sched)
    requires Reachable(s) && Enabled(s, StopDone) && Steps(Apply(s, StopDone), acts, z)
    requires z.starts == s.starts
    ensures z.jobs == map[] && z.wg == 0 && !z.running
  {
    ReachableInv(s);
    StepKeepsInv(s, StopDone);
    QuietStays(Apply(s, StopDone), acts, z);
    StepsKeepInv(Apply(s, StopDone), acts, z);
  }

  lemma {:induction false} QuietStays(s: Sched, acts: seq<Action>, z: Sched)
    requires Inv(s) && s.quiet && Steps(s, acts, z)
    ensures z.starts >= s.starts
    ensures z.starts == s.starts ==> z.quiet
    decreases |acts|
  {
    if acts != [] {
      StepKeepsInv(s, acts[0]);
      var t := Apply(s, acts[0]);
      if t.quiet { QuietStays(t, acts[1..], z); } else { StartsGrow(t, acts[1..], z); }
    }
  }

  lemma {:induction false} StartsGrow(s: Sched, acts: seq<Action>, z: Sched)
    requires Steps(s, acts, z)
    ensures z.starts >= s.starts
    decreases |acts|
  {
    if acts != [] { StartsGrow(Apply(s, acts[0]), acts[1..], z); }
  }

  /** close(stopCh) panics exactly when it is executed a second time; it is executed at most once in
      a run with one Start that takes effect. */
  lemma {:induction false} ClosesAtMostOncePerStart(z: Sched)
    requires Reachable(z)
    ensures z.closes <= z.starts
    ensures z.panicked <==> z.closes >= 2
    ensures z.starts <= 1 ==> !z.panicked
  {
    ReachableInv(z);
  }

  /** Start, Stop, Start, Stop: in every interleaving, a Stop that takes effect closes a closed
      channel exactly when another one took effect before it, however that one returned. */
  lemma {:induction false} SecondStopPanics(z: Sched)
    requires Reachable(z) && z.holder.Closing? && !z.panicked
    ensures Apply(z, CloseStopCh).panicked <==> z.finished >= 1
  {
    ReachableInv(z);
  }

  /** ... and whenever Stop takes effect it leads there. */
  lemma {:induction false} StopAfterRestartPanics(z: Sched)
    requires Reachable(z) && z.running && Enabled(z, CallStop)
    ensures Enabled(Apply(z, CallStop), CloseStopCh)
    ensures Apply(Apply(z, CallStop), CloseStopCh).panicked <==> z.finished >= 1
  {
    ReachableInv(z);
  }

  /** A restarted scheduler is reachable. */
  lemma {:induction false} RestartIsReachable() returns (z: Sched)
    ensures Reachable(z) && z.running && z.finished == 1 && Enabled(z, CallStop)
  {
    var s0 := New([]);
    var s1 := Apply(s0, CallStart);
    var s2 := Apply(s1, StartReturns);
    var s3 := Apply(s2, CallStop);
    var s4 := Apply(s3, CloseStopCh);
    var s5 := Apply(s4, StopTimeout);
    var s6 := Apply(s5, CallStart);
    z := Apply(s6, StartReturns);
    var acts := StepFirst(s6, StartReturns, [], z);
    acts := StepFirst(s5, CallStart, acts, z);
    acts := StepFirst(s4, StopTimeout, acts, z);
    acts := StepFirst(s3, CloseStopCh, acts, z);
    acts := StepFirst(s2, CallStop, acts, z);
    acts := StepFirst(s1, StartReturns, acts, z);
    acts := StepFirst(s0, CallStart, acts, z);
  }

  /** Every job of s that AddCollector started is live in z. */
  ghost predicate AddedJobsLive(s: Sched, z: Sched) {
    forall j :: j in s.jobs && !s.jobs[j].cancellable ==> j in z.jobs && !z.jobs[j].cancellable
  }

  lemma {:induction false} StepKeepsAddedJobs(s: Sched, a: Action)
    requires Inv(s) && Enabled(s, a) && !s.closed
    ensures AddedJobsLive(s, Apply(s, a))
  {
  }

  /** Cancelling the context never ends a job that AddCollector started: until stopCh is closed,
      every such job stays live. */
  lemma {:induction false} AddedJobsOutliveCancel(s: Sched, acts: seq<Action>, z: Sched)
    requires Inv(s) && Steps(s, acts, z) && !z.closed
    ensures AddedJobsLive(s, z)
    decreases |acts|
  {
    if acts != [] {
      ClosedStays(s, acts, z);
      StepKeepsInv(s, acts[0]);
      StepKeepsAddedJobs(s, acts[0]);
      AddedJobsOutliveCancel(Apply(s, acts[0]), acts[1..], z);
    }
  }

  lemma {:induction false} ClosedStays(s: Sched, acts: seq<Action>, z: Sched)
    requires Steps(s, acts, z)
    ensures s.closed ==> z.closed
    decreases |acts|
  {
    if acts != [] { ClosedStays(Apply(s, acts[0]), acts[1..], z); }
  }

  // ----- Stop can finish -----

  /** What the jobs do to end after a Stop, or after a cancellation. */
  predicate Winds(a: Action, stopped: bool) {
    a.Collected? || a.WgDone? || (if stopped then a.SeesStop? else a.SeesCancel?)
  }

  lemma {:induction false} StepFirst(s: Sched, a: Action, acts: seq<Action>, z: Sched) returns (all: seq<Action>)
    requires Enabled(s, a) && Steps(Apply(s, a), acts, z)
    ensures all == [a] + acts && Steps(s, all, z)
  {
    all := [a] + acts;
    assert all[1..] == acts;
  }

  lemma {:induction false} StepsConcat(s: Sched, acts: seq<Action>, m: Sched, more: seq<Action>, z: Sched)
    requires Steps(s, acts, m) && Steps(m, more, z)
    ensures Steps(s, acts + more, z)
    decreases |acts|
  {
    if acts == [] {
      assert acts + more == more;
    } else {
      assert (acts + more)[1..] == acts[1..] + more;
      StepsConcat(Apply(s, acts[0]), acts[1..], m, more, z);
    }
  }

  ghost predicate AllWind(acts: seq<Action>, stopped: bool) {
    forall i :: 0 <= i < |acts| ==> Winds(acts[i], stopped)
  }

  function Left(at: JobAt): nat {
    match at case Collecting => 2 case Selecting => 1 case Leaving => 0
  }

  /** The next step of job j on its way out. */
  lemma {:induction false} JobGoesOn(s: Sched, j: nat, stopped: bool) returns (act: Action)
    requires !s.panicked && j in s.jobs && (if stopped then s.closed else s.cancelled && s.jobs[j].cancellable)
    ensures Enabled(s, act) && Winds(act, stopped)
    ensures Apply(s, act) == match s.jobs[j].at
                             case Collecting => MovedTo(s, j, Selecting)
                             case Selecting => MovedTo(s, j, Leaving)
                             case Leaving => s.(wg := s.wg - 1, jobs := s.jobs - {j})
  {
    act := match s.jobs[j].at
           case Collecting => Collected(j)
           case Selecting => if stopped then SeesStop(j) else SeesCancel(j)
           case Leaving => WgDone(j);
  }

  /** Where a job was before it ended makes no difference afterwards. */
  lemma {:induction false} GoneAnyway(s: Sched, j: nat, at: JobAt)
    requires j in s.jobs
    ensures var t := MovedTo(s, j, at); t.(wg := t.wg - 1, jobs := t.jobs - {j}) == s.(wg := s.wg - 1, jobs := s.jobs - {j})
  {
    assert MovedTo(s, j, at).jobs - {j} == s.jobs - {j};
  }

  /** One job can end by itself once stopCh is closed, or once its own context is cancelled, and ends
      no other. */
  lemma {:induction false} JobCanEnd(s: Sched, j: nat, stopped: bool) returns (acts: seq<Action>, z: Sched)
    requires !s.panicked && j in s.jobs && (if stopped then s.closed else s.cancelled && s.jobs[j].cancellable)
    ensures Steps(s, acts, z) && AllWind(acts, stopped)
    ensures z == s.(wg := s.wg - 1, jobs := s.jobs - {j})
    decreases Left(s.jobs[j].at)
  {
    var act := JobGoesOn(s, j, stopped);
    var t := Apply(s, act);
    if s.jobs[j].at.Leaving? {
      acts, z := [], t;
    } else {
      acts, z := JobCanEnd(t, j, stopped);
      GoneAnyway(s, j, t.jobs[j].at);
    }
    acts := StepFirst(s, act, acts, z);
  }

  /** Once Stop has closed the channel, the jobs can all end by themselves: from every state in
      which it waits, collectors returning, jobs seeing the stop and jobs leaving the wait group
      are enough to reach one with none left, where its done branch is open. */
  lemma {:induction false} StopCanFinish(s: Sched) returns (acts: seq<Action>, z: Sched)
    requires Reachable(s) && s.holder.Waiting?
    ensures Steps(s, acts, z) && AllWind(acts, true)
    ensures z.holder == s.holder && z.wg == 0 && z.jobs == map[]
    ensures Enabled(z, WaitReturns) && Enabled(Apply(z, WaitReturns), StopDone)
  {
    ReachableInv(s);
    acts, z := AllCanEnd(s);
  }

  lemma {:induction false} AllCanEnd(s: Sched) returns (acts: seq<Action>, z: Sched)
    requires Inv(s) && s.closed && !s.panicked
    ensures Steps(s, acts, z) && AllWind(acts, true)
    ensures z == s.(wg := 0, jobs := map[])
    decreases |s.jobs|
  {
    if s.jobs == map[] {
      return [], s;
    }
    var j :| j in s.jobs;
    var first, m := JobCanEnd(s, j, true);
    StepsKeepInv(s, first, m);
    var more;
    more, z := AllCanEnd(m);
    StepsConcat(s, first, m, more, z);
    acts := first + more;
  }

  // ----- which collectors run -----

  /** Of the jobs numbered from s.next up to `next`, job s.next + i runs collector i of s under the
      caller's context as long as it is live, and all are live while it is calm; older jobs are jobs
      of s. */
  ghost predicate RunsCollectors(s: Sched, next: nat, jobs: map<nat, Job>, calm: bool) {
    && (forall j :: s.next <= j < next && j in jobs ==>
          j - s.next < |s.collectors| && jobs[j].collector == s.collectors[j - s.next] && jobs[j].cancellable)
    && (calm ==> forall j :: s.next <= j < next ==> j in jobs && !jobs[j].at.Leaving?)
    && (forall j :: j in jobs && j < s.next ==> j in s.jobs && jobs[j].collector == s.jobs[j].collector)
  }

  /** A Start that took effect on s has, in z, launched the collectors of s up to those still to do. */
  ghost predicate Launching(s: Sched, z: Sched, todo: seq<string>) {
    && s.next <= z.next <= s.next + |s.collectors| && todo == s.collectors[z.next - s.next..]
    && RunsCollectors(s, z.next, z.jobs, !z.closed && !z.cancelled)
  }

  ghost predicate StartGoesOn(s: Sched, z: Sched) {
    z.holder.Starting? && z.collectors == s.collectors && Launching(s, z, z.holder.todo)
  }

  lemma {:induction false} OneMoreJob(s: Sched, next: nat, jobs: map<nat, Job>, calm: bool)
    requires RunsCollectors(s, next, jobs, calm) && s.next <= next < s.next + |s.collectors|
    ensures RunsCollectors(s, next + 1, jobs[next := Job(s.collectors[next - s.next], true, Collecting)], calm)
  {
  }

  lemma {:induction false} JobMoves(s: Sched, next: nat, jobs: map<nat, Job>, calm: bool, j: nat, at: JobAt)
    requires RunsCollectors(s, next, jobs, calm) && j in jobs && (calm && j >= s.next ==> !at.Leaving?)
    ensures RunsCollectors(s, next, jobs[j := jobs[j].(at := at)], calm)
  {
  }

  lemma {:induction false} JobEnds(s: Sched, next: nat, jobs: map<nat, Job>, calm: bool, j: nat)
    requires RunsCollectors(s, next, jobs, calm) && j in jobs && j < next && jobs[j].at.Leaving?
    ensures RunsCollectors(s, next, jobs - {j}, calm)
  {
  }

  lemma {:induction false} SpawnKeepsLaunching(s: Sched, z: Sched)
    requires StartGoesOn(s, z) && Enabled(z, Spawn)
    ensures StartGoesOn(s, Apply(z, Spawn))
  {
    OneMoreJob(s, z.next, z.jobs, !z.closed && !z.cancelled);
  }

  lemma {:induction false} MoveKeepsLaunching(s: Sched, z: Sched, j: nat, at: JobAt)
    requires StartGoesOn(s, z) && j in z.jobs && (at.Leaving? && j >= s.next ==> z.closed || z.cancelled)
    ensures StartGoesOn(s, MovedTo(z, j, at))
  {
    JobMoves(s, z.next, z.jobs, !z.closed && !z.cancelled, j, at);
  }

  lemma {:induction false} EndKeepsLaunching(s: Sched, z: Sched, j: nat)
    requires StartGoesOn(s, z) && Inv(z) && Enabled(z, WgDone(j))
    ensures StartGoesOn(s, Apply(z, WgDone(j)))
  {
    JobEnds(s, z.next, z.jobs, !z.closed && !z.cancelled, j);
  }

  lemma {:induction false} JobKeepsLaunching(s: Sched, z: Sched, a: Action)
    requires StartGoesOn(s, z) && Inv(z) && Enabled(z, a) && IsJobStep(a)
    ensures StartGoesOn(s, Apply(z, a))
  {
    match a
    case Collected(j) => MoveKeepsLaunching(s, z, j, Selecting);
    case Ticks(j) => MoveKeepsLaunching(s, z, j, Collecting);
    case SeesStop(j) => MoveKeepsLaunching(s, z, j, Leaving);
    case SeesCancel(j) => MoveKeepsLaunching(s, z, j, Leaving);
    case WgDone(j) => EndKeepsLaunching(s, z, j);
  }

  lemma {:induction false} StepsKeepLaunching(s: Sched, m: Sched, acts: seq<Action>, z: Sched)
    requires StartGoesOn(s, m) && Inv(m) && Steps(m, acts, z) && StartReturns !in acts
    ensures StartGoesOn(s, z)
    decreases |acts|
  {
    if acts != [] {
      if acts[0].Spawn? {
        SpawnKeepsLaunching(s, m);
      } else if IsJobStep(acts[0]) {
        JobKeepsLaunching(s, m, acts[0]);
      }
      StepKeepsInv(m, acts[0]);
      StepsKeepLaunching(s, Apply(m, acts[0]), acts[1..], z);
    }
  }

  /** In every interleaving, a Start on a stopped scheduler launches exactly its collectors, in order,
      each once and under the caller's context, before it returns: no job is left out or launched
      twice, whatever the jobs do meanwhile, and without a stop or a cancellation all are live. */
  lemma {:induction false} StartLaunchesAll(s: Sched, acts: seq<Action>, z: Sched)
    requires Reachable(s) && !s.running && Enabled(s, CallStart)
    requires Steps(Apply(s, CallStart), acts, z) && StartReturns !in acts && Enabled(z, StartReturns)
    ensures Launching(s, z, []) && z.next == s.next + |s.collectors| && z.running
  {
    ReachableInv(s);
    StepKeepsInv(s, CallStart);
    StepsKeepLaunching(s, Apply(s, CallStart), acts, z);
    StepsKeepInv(Apply(s, CallStart), acts, z);
  }

  /** AddCollector puts the collector last; on a running scheduler it also launches it, once, without
      the caller's context, and on a stopped one it launches nothing.  Start and Stop in the wrong
      state change nothing. */
  lemma {:induction false} AddLaunchesWhenRunning(s: Sched, name: string)
    requires Reachable(s) && Enabled(s, Add(name))
    ensures var z := Apply(s, Add(name));
      && z.collectors == s.collectors + [name]
      && (if s.running then z.jobs == s.jobs[s.next := Job(name, false, Collecting)] && s.next !in s.jobs && z.wg == s.wg + 1
          else z.jobs == s.jobs && z.wg == s.wg)
    ensures if s.running then Apply(s, CallStart) == s else Apply(s, CallStop) == s
  {
    ReachableInv(s);
  }

  /** RemoveCollector takes out the first collector of that name and no other, and stops no job. */
  lemma {:induction false} RemoveTakesFirst(s: Sched, before: seq<string>, name: string, after: seq<string>)
    requires Enabled(s, Remove(name)) && name !in before
    ensures s.collectors == before + [name] + after ==> Apply(s, Remove(name)) == s.(collectors := before + after)
    ensures name !in s.collectors ==> Apply(s, Remove(name)) == s
  {
    FirstRemoved(before, name, after);
    if name !in s.collectors { NoneRemoved(s.collectors, name); }
  }

  lemma {:induction false} FirstRemoved(before: seq<string>, name: string, after: seq<string>)
    requires name !in before
    ensures RemoveFirst(before + [name] + after, name) == before + after
  {
    var all := before + [name] + after;
    if before == [] {
      assert all[0] == name && all[1..] == after && before + after == after;
    } else {
      assert all[0] == before[0] && all[1..] == before[1..] + [name] + after;
      FirstRemoved(before[1..], name, after);
      assert before + after == [before[0]] + (before[1..] + after);
    }
  }

  lemma {:induction false} NoneRemoved(collectors: seq<string>, name: string)
    requires name !in collectors
    ensures RemoveFirst(collectors, name) == collectors
  {
    if collectors != [] { NoneRemoved(collectors[1..], name); }
  }
}
