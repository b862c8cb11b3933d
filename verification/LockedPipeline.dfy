/** The pipeline and the locking protocol of its queue run as one system: workers wait on the condition
    variable, submitters and `stop` notify it (event_pipeline.cpp over concurrent_queue.hpp). */
module LockedPipeline {
  import opened Base
  import opened Events
  import opened ConcurrentQueues
  import opened Counting
  import P = PipelineProtocol
  import Q = QueueProtocol

  type Config = P.Config

  /** Queue threads 0 to numWorkers - 1 carry the workers, thread numWorkers is the controlling thread,
      and those after it submit. */
  datatype State = State(p: P.State, q: Q.State<ActivityEvent>)

  datatype Step =
    | Plain(a: P.Action)                  // a step of the pipeline that leaves the queue alone
    | Queue(b: Q.Action<ActivityEvent>)   // a section under the lock, a notification or a wake-up

  function Init(c: Config, submitters: nat): State {
    State(P.Init(c), Q.Init(c.numWorkers + 1 + submitters))
  }

  predicate LeavesQueue(a: P.Action) {
    !a.Submit? && !a.QueueStop? && !a.PopSome? && !a.PopNone?
  }

  predicate OwnerIdle(c: Config, s: State) {
    c.numWorkers < |s.q.threads| && s.q.threads[c.numWorkers].Idle?
  }

  /** Who calls what: workers in `pop_for`, the controlling thread in `stop`, submitters in `push`. A
      wake-up or notification comes to whoever waits for it. */
  predicate Calls(c: Config, s: State, b: Q.Action<ActivityEvent>) {
    match b
    case Push(t, _) => t > c.numWorkers
    case Stop(t) => t == c.numWorkers && s.p.owner.Stopping?
    case Pop(t, timed) => timed && t < |s.p.workers| && s.p.workers[t].Popping?
    case TryPop(_) => false
    case _ => true
  }

  /** The controlling thread joins once it has notified. */
  predicate Enabled(c: Config, s: State, step: Step) {
    match step
    case Plain(a) => LeavesQueue(a) && P.Enabled(c, s.p, a) && (a.Join? ==> OwnerIdle(c, s))
    case Queue(b) => Q.Enabled(s.q, b) && Calls(c, s, b)
  }

  /** What a section under the lock amounts to for the pipeline: nothing when the caller goes to sleep. */
  ghost function PipelineAction(s: State, b: Q.Action<ActivityEvent>): Option<P.Action>
    requires Q.Enabled(s.q, b)
  {
    match Q.EffectOf(s.q, b)
    case Nothing => None
    case Appended(x) => Some(P.Submit(x))
    case Took(_) => Some(P.PopSome(b.t))
    case GaveUp => Some(P.PopNone(b.t))
    case Stopped => Some(P.QueueStop)
  }

  /** The pipeline's part of a step. */
  ghost function ActionsOf(c: Config, s: State, step: Step): seq<P.Action>
    requires Enabled(c, s, step)
  {
    match step
    case Plain(a) => [a]
    case Queue(b) => if PipelineAction(s, b).Some? then [PipelineAction(s, b).value] else []
  }

  /** The pipeline moves along with its queue; that it can is shown by `StepKeepsLinked`. */
  ghost function Next(c: Config, s: State, step: Step): State
    requires Enabled(c, s, step)
  {
    var acts := ActionsOf(c, s, step);
    State(
      if acts != [] && P.Enabled(c, s.p, acts[0]) then P.Next(c, s.p, acts[0]) else s.p,
      if step.Queue? then Q.Next(s.q, step.b) else s.q)
  }

  ghost predicate Run(c: Config, s: State, steps: seq<Step>, s': State)
    decreases |steps|
  {
    if steps == [] then s' == s
    else Enabled(c, s, steps[0]) && Run(c, Next(c, s, steps[0]), steps[1..], s')
  }

  // ---- both halves stay in step ----

  /** What queue thread `t` can be doing, given where the pipeline is. */
  predicate ThreadFits(c: Config, p: P.State, t: nat, th: Q.Thread) {
    if t < c.numWorkers then
      th.Idle? || ((th.Asleep? || th.Awake?) && th.timed && t < |p.workers| && p.workers[t].Popping?)
    else if t == c.numWorkers then th.Idle? || (th.Broadcasting? && p.owner.Joining?)
    else th.Idle? || th.Notifying?
  }

  /** One queue, one history, and every thread where the pipeline has it. */
  ghost predicate Linked(c: Config, s: State) {
    && s.p.q == s.q.q && s.p.submitted == s.q.pushed && s.p.dequeued == s.q.popped
    && c.numWorkers < |s.q.threads|
    && forall t: nat | t < |s.q.threads| :: ThreadFits(c, s.p, t, s.q.threads[t])
  }

  lemma PlainKeepsLinked(c: Config, s: State, a: P.Action)
    requires P.Phased(c, s.p) && Linked(c, s) && Enabled(c, s, Plain(a))
    ensures Linked(c, Next(c, s, Plain(a)))
  {
    var s' := Next(c, s, Plain(a));
    forall t: nat | t < |s.q.threads| ensures ThreadFits(c, s'.p, t, s.q.threads[t]) {
      assert ThreadFits(c, s.p, t, s.q.threads[t]);
    }
  }

  lemma LooksFromPopping(c: Config, s: State, b: Q.Action<ActivityEvent>)
    requires P.Phased(c, s.p) && Linked(c, s) && Enabled(c, s, Queue(b)) && (b.Pop? || b.Recheck?)
    ensures b.t < |s.p.workers| && s.p.workers[b.t].Popping? && b.t < c.numWorkers
    ensures b.Recheck? ==> s.q.threads[b.t].timed
  {
    assert ThreadFits(c, s.p, b.t, s.q.threads[b.t]);
  }

  /** How a look at the queue ends: with the oldest item, with nothing, or asleep. */
  lemma LookEffect(q: Q.State<ActivityEvent>, b: Q.Action<ActivityEvent>)
    requires Q.Enabled(q, b) && (b.Pop? || b.Recheck?)
    ensures var q', e := Q.Next(q, b), Q.EffectOf(q, b);
            && q'.threads == q.threads[b.t := q'.threads[b.t]]
            && (if e.Nothing? then q'.threads[b.t] == Q.Asleep(if b.Pop? then b.timed else q.threads[b.t].timed)
                else q'.threads[b.t].Idle?)
            && (match e
                case Took(x) => q.q.items != [] && x == q.q.items[0] && q'.popped == q.popped + [x]
                                && q'.q == q.q.(items := q.q.items[1..])
                case GaveUp => q.q.items == [] && q'.q == q.q && q'.popped == q.popped
                case Nothing => q'.q == q.q && q'.popped == q.popped
                case _ => false)
            && q'.pushed == q.pushed
  {
  }

  /** A look at the queue by a waiting worker. */
  lemma LookKeepsLinked(c: Config, s: State, b: Q.Action<ActivityEvent>)
    requires P.Phased(c, s.p) && Linked(c, s) && Enabled(c, s, Queue(b)) && (b.Pop? || b.Recheck?)
    ensures forall a | a in ActionsOf(c, s, Queue(b)) :: P.Enabled(c, s.p, a)
    ensures Linked(c, Next(c, s, Queue(b)))
  {
    var s', t := Next(c, s, Queue(b)), b.t;
    LooksFromPopping(c, s, b);
    LookEffect(s.q, b);
    forall v: nat | v < |s'.q.threads| ensures ThreadFits(c, s'.p, v, s'.q.threads[v]) {
      assert ThreadFits(c, s.p, v, s.q.threads[v]);
      if v != t {
        assert v < |s.p.workers| ==> s'.p.workers[v] == s.p.workers[v];
      }
    }
  }

  /** A wake-up or a notification: the pipeline does not see it. */
  lemma WakeKeepsLinked(c: Config, s: State, b: Q.Action<ActivityEvent>)
    requires Linked(c, s) && Enabled(c, s, Queue(b))
    requires b.NotifyOne? || b.NotifyAll? || b.Spurious? || b.TimeOut? || b.Expire?
    ensures ActionsOf(c, s, Queue(b)) == [] && Linked(c, Next(c, s, Queue(b)))
  {
    var s' := Next(c, s, Queue(b));
    forall v: nat | v < |s'.q.threads| ensures ThreadFits(c, s'.p, v, s'.q.threads[v]) {
      assert ThreadFits(c, s.p, v, s.q.threads[v]);
    }
  }

  lemma CallKeepsLinked(c: Config, s: State, b: Q.Action<ActivityEvent>)
    requires P.Phased(c, s.p) && Linked(c, s) && Enabled(c, s, Queue(b)) && (b.Push? || b.Stop?)
    ensures forall a | a in ActionsOf(c, s, Queue(b)) :: P.Enabled(c, s.p, a)
    ensures Linked(c, Next(c, s, Queue(b)))
  {
    var s' := Next(c, s, Queue(b));
    forall v: nat | v < |s'.q.threads| ensures ThreadFits(c, s'.p, v, s'.q.threads[v]) {
      assert ThreadFits(c, s.p, v, s.q.threads[v]);
    }
  }

  /** Whatever a section under the lock does, the pipeline can do its part, and the halves stay linked. */
  lemma StepKeepsLinked(c: Config, s: State, step: Step)
    requires P.Phased(c, s.p) && Linked(c, s) && Enabled(c, s, step)
    ensures forall a | a in ActionsOf(c, s, step) :: P.Enabled(c, s.p, a)
    ensures Linked(c, Next(c, s, step))
  {
    match step
    case Plain(a) => PlainKeepsLinked(c, s, a);
    case Queue(b) =>
      if b.Pop? || b.Recheck? {
        LookKeepsLinked(c, s, b);
      } else if b.Push? || b.Stop? {
        CallKeepsLinked(c, s, b);
      } else {
        WakeKeepsLinked(c, s, b);
      }
  }

  // ---- every run is a run of the pipeline and a run of the locking protocol ----

  ghost function PipelineRun(c: Config, s: State, steps: seq<Step>, s': State): seq<P.Action>
    requires Run(c, s, steps, s')
    decreases |steps|
  {
    if steps == [] then []
    else ActionsOf(c, s, steps[0]) + PipelineRun(c, Next(c, s, steps[0]), steps[1..], s')
  }

  function QueueRun(steps: seq<Step>): seq<Q.Action<ActivityEvent>> {
    if steps == [] then []
    else (if steps[0].Queue? then [steps[0].b] else []) + QueueRun(steps[1..])
  }

  /** One step, seen from the pipeline: a step of its own or none. */
  lemma StepProjects(c: Config, s: State, step: Step, rest: seq<P.Action>, end: P.State)
    requires P.Phased(c, s.p) && Linked(c, s) && Enabled(c, s, step)
    requires P.Run(c, Next(c, s, step).p, rest, end)
    ensures P.Run(c, s.p, ActionsOf(c, s, step) + rest, end)
  {
    var acts := ActionsOf(c, s, step);
    StepKeepsLinked(c, s, step);
    if acts == [] {
      assert acts + rest == rest;
    } else {
      assert acts[0] in acts;
      assert (acts + rest)[0] == acts[0] && (acts + rest)[1..] == rest;
    }
  }

  lemma {:induction false} RunProjects(c: Config, s: State, steps: seq<Step>, s': State)
    requires P.Phased(c, s.p) && Linked(c, s) && Run(c, s, steps, s')
    ensures P.Phased(c, s'.p) && Linked(c, s')
    ensures P.Run(c, s.p, PipelineRun(c, s, steps, s'), s'.p)
    decreases |steps|
  {
    if steps != [] {
      var next := Next(c, s, steps[0]);
      StepKeepsLinked(c, s, steps[0]);
      StepKeepsPhased(c, s, steps[0]);
      RunProjects(c, next, steps[1..], s');
      StepProjects(c, s, steps[0], PipelineRun(c, next, steps[1..], s'), s'.p);
    }
  }

  lemma StepKeepsPhased(c: Config, s: State, step: Step)
    requires P.Phased(c, s.p) && Enabled(c, s, step)
    ensures P.Phased(c, Next(c, s, step).p)
  {
    var acts := ActionsOf(c, s, step);
    if acts != [] && P.Enabled(c, s.p, acts[0]) {
      P.NextPhased(c, s.p, acts[0]);
    }
  }

  lemma {:induction false} QueueRunProjects(c: Config, s: State, steps: seq<Step>, s': State)
    requires Run(c, s, steps, s')
    ensures Q.Run(s.q, QueueRun(steps), s'.q)
    decreases |steps|
  {
    if steps != [] {
      QueueRunProjects(c, Next(c, s, steps[0]), steps[1..], s');
      if steps[0].Queue? {
        assert QueueRun(steps)[1..] == QueueRun(steps[1..]);
      } else {
        assert QueueRun(steps) == QueueRun(steps[1..]);
      }
    }
  }

  lemma InitLinked(c: Config, submitters: nat)
    ensures P.Phased(c, P.Init(c)) && Linked(c, Init(c, submitters))
  {
  }

  lemma Reachable(c: Config, submitters: nat, steps: seq<Step>, s: State)
    requires Run(c, Init(c, submitters), steps, s)
    ensures P.Phased(c, s.p) && Linked(c, s)
    ensures P.Run(c, P.Init(c), PipelineRun(c, Init(c, submitters), steps, s), s.p)
  {
    InitLinked(c, submitters);
    RunProjects(c, Init(c, submitters), steps, s);
  }

  /** Every run over the locks is, seen from the pipeline, a run of the pipeline over the atomic queue,
      and, seen from the queue, a run of the locking protocol, with one queue and one history. So all
      that is proved of either holds of both together. */
  lemma RunsOverLocks(c: Config, submitters: nat, steps: seq<Step>, s: State)
    requires Run(c, Init(c, submitters), steps, s)
    ensures P.Run(c, P.Init(c), PipelineRun(c, Init(c, submitters), steps, s), s.p)
    ensures Q.Run(Q.Init(c.numWorkers + 1 + submitters), QueueRun(steps), s.q)
    ensures s.p.q == s.q.q && s.p.submitted == s.q.pushed && s.p.dequeued == s.q.popped
  {
    Reachable(c, submitters, steps, s);
    QueueRunProjects(c, Init(c, submitters), steps, s);
  }

  /** A worker asleep in `pop_for` comes back when its time is up: with the oldest event if there is one,
      and to the test of `running_` otherwise. */
  lemma SleepingWorkerComesBack(c: Config, submitters: nat, steps: seq<Step>, s: State, w: nat)
    requires Run(c, Init(c, submitters), steps, s)
    requires w < |s.p.workers| && w < |s.q.threads| && s.q.threads[w].Asleep?
    ensures Enabled(c, s, Queue(Q.TimeOut(w)))
    ensures Enabled(c, Next(c, s, Queue(Q.TimeOut(w))), Queue(Q.Recheck(w)))
    ensures var s' := Next(c, Next(c, s, Queue(Q.TimeOut(w))), Queue(Q.Recheck(w)));
            && s'.q.threads[w] == Q.Idle && w < |s'.p.workers|
            && s'.p.workers[w] == if s.p.q.items == [] then P.Checking
                                  else P.Staging(|s.p.dequeued|, s.p.q.items[0], 0)
  {
    Reachable(c, submitters, steps, s);
    assert ThreadFits(c, s.p, w, s.q.threads[w]);
    WakeKeepsLinked(c, s, Q.TimeOut(w));
    ExpiredWorkerComesBack(c, Next(c, s, Queue(Q.TimeOut(w))), w);
  }

  lemma ExpiredWorkerComesBack(c: Config, s: State, w: nat)
    requires P.Phased(c, s.p) && Linked(c, s) && w < c.numWorkers
    requires w < |s.p.workers| && s.p.workers[w].Popping? && s.q.threads[w] == Q.Awake(true, true)
    ensures Enabled(c, s, Queue(Q.Recheck(w)))
    ensures var s' := Next(c, s, Queue(Q.Recheck(w)));
            && s'.q.threads[w] == Q.Idle && w < |s'.p.workers|
            && s'.p.workers[w] == if s.p.q.items == [] then P.Checking
                                  else P.Staging(|s.p.dequeued|, s.p.q.items[0], 0)
  {
    LookEffect(s.q, Q.Recheck(w));
    Q.LookAnswers(s.q, Q.Recheck(w));
  }

  // ---- shutdown over the locks ----

  /** The steps that the pipeline's own threads can take without a timeout, a spurious wake-up or anyone
      else's help. */
  predicate Prompt(step: Step) {
    match step
    case Plain(a) => P.Own(a)
    case Queue(b) => b.Pop? || b.Recheck? || b.Stop? || b.NotifyAll?
  }

  /** Once `stop` has notified, no worker sleeps: joining never has to wait for a timeout. */
  lemma JoinedWorkersAreAwake(c: Config, submitters: nat, steps: seq<Step>, s: State)
    requires Run(c, Init(c, submitters), steps, s)
    requires s.p.owner.Joining? && OwnerIdle(c, s)
    ensures !Q.SomeAsleep(s.q)
  {
    Reachable(c, submitters, steps, s);
    SleepersAwaitBroadcast(c, submitters, steps, s);
    OnlyOwnerBroadcasts(c, s);
  }

  lemma SleepersAwaitBroadcast(c: Config, submitters: nat, steps: seq<Step>, s: State)
    requires Run(c, Init(c, submitters), steps, s)
    ensures Q.SomeAsleep(s.q) && s.q.q.stopped ==> Q.Broadcasters(s.q) > 0
  {
    QueueRunProjects(c, Init(c, submitters), steps, s);
    Q.NoLostWakeUp(c.numWorkers + 1 + submitters, QueueRun(steps), s.q);
  }

  lemma OnlyOwnerBroadcasts(c: Config, s: State)
    requires Linked(c, s) && OwnerIdle(c, s)
    ensures Q.Broadcasters(s.q) == 0
  {
    CountPositive(s.q.threads, Q.IsBroadcasting);
    forall t: nat | t < |s.q.threads| ensures !Q.IsBroadcasting(s.q.threads[t]) {
      assert ThreadFits(c, s.p, t, s.q.threads[t]);
    }
  }

  /** Until `stop` returns, the pipeline's own threads can always move promptly. */
  lemma ShutdownIsPrompt(c: Config, submitters: nat, steps: seq<Step>, s: State)
    requires Run(c, Init(c, submitters), steps, s) && P.Shutting(s.p)
    ensures exists step :: Prompt(step) && Enabled(c, s, step)
  {
    Reachable(c, submitters, steps, s);
    var owner := c.numWorkers;
    assert ThreadFits(c, s.p, owner, s.q.threads[owner]);
    var step := Plain(P.Join);
    if s.p.owner.Stopping? {
      step := Queue(Q.Stop(owner));
    } else if !OwnerIdle(c, s) {
      step := Queue(Q.NotifyAll(owner));
    } else if s.p.owner.joined < |s.p.workers| {
      JoinedWorkersAreAwake(c, submitters, steps, s);
      step := WorkerStep(c, s, s.p.owner.joined);
    }
    assert Prompt(step) && Enabled(c, s, step);
  }

  /** The next prompt step of a worker that is not asleep, or the join once it has left. */
  lemma WorkerStep(c: Config, s: State, w: nat) returns (step: Step)
    requires P.Phased(c, s.p) && Linked(c, s) && OwnerIdle(c, s) && !Q.SomeAsleep(s.q)
    requires s.p.owner == P.Joining(w) && w < |s.p.workers|
    ensures Prompt(step) && Enabled(c, s, step)
  {
    assert ThreadFits(c, s.p, w, s.q.threads[w]);
    match s.p.workers[w] {
      case Exited => step := Plain(P.Join);
      case Checking => step := Plain(P.Check(w));
      case Popping => step := if s.q.threads[w].Idle? then Queue(Q.Pop(w, true)) else Queue(Q.Recheck(w));
      case Staging(_, _, done) => step := Plain(if done < |c.stages| then P.RunStage(w) else P.Save(w, true));
      case Finishing(_) => step := Plain(P.Finish(w));
    }
  }

  /** Prompt steps left to a shutdown whose stop flag is set. */
  function PromptLeft(c: Config, s: State): nat {
    P.WorkLeft(c, s.p.workers) + P.OwnerLeft(s.p) + if s.p.owner.Stopping? || !OwnerIdle(c, s) then 1 else 0
  }

  /** Past the stop flag a look at the queue never puts anyone to sleep. */
  lemma PromptLookCounts(c: Config, s: State, b: Q.Action<ActivityEvent>)
    requires P.Phased(c, s.p) && Linked(c, s) && Enabled(c, s, Queue(b)) && (b.Pop? || b.Recheck?)
    requires P.Shutting(s.p) && s.q.q.stopped
    ensures Next(c, s, Queue(b)).q.q.stopped
    ensures PromptLeft(c, Next(c, s, Queue(b))) < PromptLeft(c, s)
  {
    LooksFromPopping(c, s, b);
    LookEffect(s.q, b);
    LookKeepsLinked(c, s, b);
    var acts := ActionsOf(c, s, Queue(b));
    assert acts[0] in acts;
    P.ShutdownStep(c, s.p, acts[0]);
  }

  lemma CallCounts(c: Config, s: State, b: Q.Action<ActivityEvent>)
    requires P.Phased(c, s.p) && Linked(c, s) && Enabled(c, s, Queue(b)) && (b.Push? || b.Stop?)
    requires P.Shutting(s.p) && s.q.q.stopped
    ensures Next(c, s, Queue(b)).q.q.stopped
    ensures PromptLeft(c, Next(c, s, Queue(b))) + (if b.Stop? then 1 else 0) <= PromptLeft(c, s)
  {
    CallKeepsLinked(c, s, b);
    var acts := ActionsOf(c, s, Queue(b));
    assert acts[0] in acts;
    P.ShutdownStep(c, s.p, acts[0]);
  }

  lemma WakeCounts(c: Config, s: State, b: Q.Action<ActivityEvent>)
    requires Linked(c, s) && Enabled(c, s, Queue(b)) && P.Shutting(s.p) && s.q.q.stopped
    requires b.NotifyOne? || b.NotifyAll? || b.Spurious? || b.TimeOut? || b.Expire?
    ensures Next(c, s, Queue(b)).q.q.stopped
    ensures PromptLeft(c, Next(c, s, Queue(b))) + (if b.NotifyAll? then 1 else 0) <= PromptLeft(c, s)
  {
    WakeKeepsLinked(c, s, b);
    assert ThreadFits(c, s.p, b.t, s.q.threads[b.t]);
    assert ThreadFits(c, s.p, c.numWorkers, s.q.threads[c.numWorkers]);
  }

  lemma PromptStepCounts(c: Config, s: State, step: Step)
    requires P.Phased(c, s.p) && Linked(c, s) && Enabled(c, s, step)
    requires P.Shutting(s.p) && s.q.q.stopped
    ensures Next(c, s, step).q.q.stopped
    ensures PromptLeft(c, Next(c, s, step)) + (if Prompt(step) then 1 else 0) <= PromptLeft(c, s)
  {
    match step
    case Plain(a) => P.ShutdownStep(c, s.p, a);
    case Queue(b) =>
      if b.Pop? || b.Recheck? {
        PromptLookCounts(c, s, b);
      } else if b.Push? || b.Stop? {
        CallCounts(c, s, b);
      } else {
        WakeCounts(c, s, b);
      }
  }

  ghost predicate StopRun(c: Config, s: State, steps: seq<Step>, s': State)
    decreases |steps|
  {
    if steps == [] then s' == s
    else P.Shutting(s.p) && Enabled(c, s, steps[0]) && StopRun(c, Next(c, s, steps[0]), steps[1..], s')
  }

  function PromptSteps(steps: seq<Step>): nat {
    Count(steps, Prompt)
  }

  lemma {:induction false} StopRunCounts(c: Config, s: State, steps: seq<Step>, s': State)
    requires P.Phased(c, s.p) && Linked(c, s) && s.q.q.stopped && StopRun(c, s, steps, s')
    ensures PromptSteps(steps) + PromptLeft(c, s') <= PromptLeft(c, s)
    decreases |steps|
  {
    if steps != [] {
      var next, acts := Next(c, s, steps[0]), ActionsOf(c, s, steps[0]);
      StepKeepsLinked(c, s, steps[0]);
      PromptStepCounts(c, s, steps[0]);
      if acts != [] {
        assert acts[0] in acts;
        P.NextPhased(c, s.p, acts[0]);
      }
      StopRunCounts(c, next, steps[1..], s');
    }
  }

  /** From any reachable state of a shutdown on, once the stop flag is set, the pipeline's own threads
      take a bounded number of prompt steps, whatever submitters, timeouts and spurious wake-ups do. */
  lemma ShutdownOverLocksIsBounded(c: Config, submitters: nat, before: seq<Step>, s: State, steps: seq<Step>, s': State)
    requires Run(c, Init(c, submitters), before, s)
    requires s.q.q.stopped && StopRun(c, s, steps, s')
    ensures P.Shutting(s.p) ==> PromptSteps(steps) <= c.numWorkers * (5 + |c.stages|) + 3
  {
    Reachable(c, submitters, before, s);
    StopRunCounts(c, s, steps, s');
    P.WorkLeftBound(c, s.p.workers);
    P.MoreWorkers(|s.p.workers|, c.numWorkers, 4 + |c.stages|);
  }
}
