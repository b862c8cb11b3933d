/** The pipeline object and what one worker does with one event (event_pipeline.cpp). */
module EventPipelines {
  import opened Base
  import opened Events
  import opened EventStores
  import opened ConcurrentQueues
  import opened InvertedIndexes

  /** How a call of a stage ends, and what it leaves in the event it was given. */
  datatype StageOutcome = Returned(event: ActivityEvent) | Threw(event: ActivityEvent)

  /** A stage is given the event, and its outcome may depend on which event of all dequeued ones it is:
      each event runs through each stage once, so whatever else a stage reads or keeps is covered. */
  type Stage = (nat, ActivityEvent) -> StageOutcome

  /** The event after all stages: a throwing stage keeps what it has changed, and the next stage
      runs all the same. */
  function StageFold(stages: seq<Stage>, ticket: nat, e: ActivityEvent): ActivityEvent {
    if stages == [] then e
    else stages[|stages| - 1](ticket, StageFold(stages[..|stages| - 1], ticket, e)).event
  }

  /** How many of the stages throw on the event. */
  function Thrown(stages: seq<Stage>, ticket: nat, e: ActivityEvent): nat {
    if stages == [] then 0
    else
      var before := stages[..|stages| - 1];
      Thrown(before, ticket, e) +
      if stages[|stages| - 1](ticket, StageFold(before, ticket, e)).Threw? then 1 else 0
  }

  /** `es` are the states of one event on its way through the stages: whether a stage returns or throws,
      what it left in the event is what the next one gets. */
  ghost predicate RunsThrough(stages: seq<Stage>, ticket: nat, e: ActivityEvent, es: seq<ActivityEvent>) {
    && |es| == |stages| + 1 && es[0] == e
    && forall i, j | 0 <= i < |stages| && j == i + 1 ::
         stages[i](ticket, es[i]) in {StageOutcome.Returned(es[j]), StageOutcome.Threw(es[j])}
  }

  function ThrowsIn(stages: seq<Stage>, ticket: nat, es: seq<ActivityEvent>): set<nat>
    requires |stages| <= |es|
  {
    set i: nat | i < |stages| && stages[i](ticket, es[i]).Threw?
  }

  lemma OneMoreStage(stages: seq<Stage>, stage: Stage, ticket: nat, e: ActivityEvent, es: seq<ActivityEvent>)
    requires RunsThrough(stages, ticket, e, es)
    ensures var n, outcome := |stages|, stage(ticket, es[|stages|]);
            && RunsThrough(stages + [stage], ticket, e, es + [outcome.event])
            && |ThrowsIn(stages + [stage], ticket, es + [outcome.event])|
                 == |ThrowsIn(stages, ticket, es)| + if outcome.Threw? then 1 else 0
  {
    var n, outcome := |stages|, stage(ticket, es[|stages|]);
    var earlier, now := ThrowsIn(stages, ticket, es), ThrowsIn(stages + [stage], ticket, es + [outcome.event]);
    assert now == earlier + if outcome.Threw? then {n} else {};
  }

  /** The fold is the last of these states, and `Thrown` counts the stages that threw. */
  lemma {:induction false} FoldRunsThrough(stages: seq<Stage>, ticket: nat, e: ActivityEvent)
    returns (es: seq<ActivityEvent>)
    ensures RunsThrough(stages, ticket, e, es) && es[|stages|] == StageFold(stages, ticket, e)
    ensures |ThrowsIn(stages, ticket, es)| == Thrown(stages, ticket, e)
    decreases |stages|
  {
    if stages == [] {
      es := [e];
    } else {
      var n := |stages| - 1;
      var before := FoldRunsThrough(stages[..n], ticket, e);
      assert stages == stages[..n] + [stages[n]];
      es := before + [stages[n](ticket, before[n]).event];
      OneMoreStage(stages[..n], stages[n], ticket, e, before);
    }
  }

  class EventPipeline {
    const queue: ConcurrentQueue<ActivityEvent>
    var stages: seq<Stage>
    var storage: EventStore?
    var index: InvertedIndex?
    var processedCount: nat

    constructor ()
      ensures fresh(queue) && queue.View() == Contents([], false)
      ensures stages == [] && storage == null && index == null && processedCount == 0
    {
      queue := new ConcurrentQueue();
      stages, storage, index, processedCount := [], null, null, 0;
    }

    method AddStage(stage: Stage)
      modifies this`stages
      ensures stages == old(stages) + [stage]
    {
      stages := stages + [stage];
    }

    method SetStorage(store: EventStore?)
      modifies this`storage
      ensures storage == store
    {
      storage := store;
    }

    method SetIndex(index: InvertedIndex?)
      modifies this`index
      ensures this.index == index
    {
      this.index := index;
    }

    method Submit(e: ActivityEvent)
      modifies queue
      ensures queue.View() == Contents(old(queue.queue) + [e], old(queue.stopped))
    {
      queue.Push(e);
    }

    /** The body of the worker loop once an event has been popped. `ok` is whether the insert
        succeeds; an exception there or in a stage is caught and logged, and the event still counts.
        Keywords are extracted for an index, but nothing is added to it. */
    method ProcessEvent(ticket: nat, e: ActivityEvent, ok: bool) returns (errors: nat)
      requires storage != null ==> storage.Valid()
      modifies this`processedCount, storage
      ensures processedCount == old(processedCount) + 1
      ensures storage != null ==> storage.Valid()
      ensures storage != null ==>
                storage.View() == Apply(old(storage.View()), SaveWrite(StageFold(stages, ticket, e), ok))
      ensures errors == Thrown(stages, ticket, e)
                        + if storage != null && !(ok && CanInsert(old(storage.View()))) then 1 else 0
      ensures exists es ::
                && RunsThrough(stages, ticket, e, es)
                && Thrown(stages, ticket, e) == |ThrowsIn(stages, ticket, es)|
                && (storage != null ==> storage.View() == Apply(old(storage.View()), SaveWrite(es[|stages|], ok)))
      ensures index != null ==> index.indexed == old(index.indexed)
    {
      var event := e;
      errors := 0;
      ghost var es := FoldRunsThrough(stages, ticket, e);
      for i := 0 to |stages|
        invariant event == StageFold(stages[..i], ticket, e) && errors == Thrown(stages[..i], ticket, e)
      {
        assert stages[..i + 1][..i] == stages[..i] && stages[..i + 1][i] == stages[i];
        match stages[i](ticket, event) {
          case Returned(changed) => event := changed;
          case Threw(changed) =>
            event := changed;
            errors := errors + 1;
        }
      }
      assert stages[..|stages|] == stages;
      if storage != null {
        var id := storage.Save(event, ok);
        match id {
          case Some(value) => event := event.(id := value);
          case None => errors := errors + 1;
        }
      }
      if index != null {
        var _ := ExtractKeywords(event);
      }
      processedCount := processedCount + 1;
    }
  }
}

/** Every interleaving of submitters, a pool of workers, the thread that starts and stops the
    pipeline, and whoever clears the table. */
module PipelineProtocol {
  import opened Base
  import opened Events
  import opened EventStores
  import opened ConcurrentQueues
  import opened Counting
  import opened EventPipelines
  import QueueProtocol

  datatype Config = Config(numWorkers: nat, stages: seq<Stage>, hasStorage: bool, table: Table)

  /** Where a worker is in its loop. A ticket is the position of an event among all dequeued. */
  datatype Worker =
    | Checking                                                    // about to test running_
    | Popping                                                     // inside pop_for
    | Staging(ticket: nat, event: ActivityEvent, done: nat)       // `done` stages have run
    | Finishing(ticket: nat)                                      // past the save, not yet counted
    | Exited

  /** Where the controlling thread is. */
  datatype Owner = Free | Spawning | Stopping | Joining(joined: nat)

  datatype Saved = Saved(ticket: nat, id: u64)

  datatype State = State(
    q: Contents<ActivityEvent>,
    running: bool,
    owner: Owner,
    workers: seq<Worker>,
    processed: nat,
    table: Table,
    // history
    submitted: seq<ActivityEvent>,
    dequeued: seq<ActivityEvent>,
    finished: set<nat>,
    saves: seq<Saved>,
    failed: set<nat>,
    cleared: bool,       // the table has been cleared
    live: nat)           // the saves since then

  function Init(c: Config): State {
    State(Contents([], false), false, Free, [], 0, c.table, [], [], {}, [], {}, false, 0)
  }

  datatype Action =
    | Submit(e: ActivityEvent)
    | Start
    | Spawn
    | StopCall
    | QueueStop
    | Join
    | Check(w: nat)
    | PopSome(w: nat)
    | PopNone(w: nat)        // pop_for gives up: only on an empty queue, see RefinesAtomicQueue
    | RunStage(w: nat)
    | Save(w: nat, ok: bool)
    | Finish(w: nat)
    | ClearTable

  predicate Enabled(c: Config, s: State, a: Action) {
    match a
    case Submit(_) => true
    case Start => s.owner.Free?
    case Spawn => s.owner.Spawning?
    case StopCall => s.owner.Free?
    case QueueStop => s.owner.Stopping?
    case Join =>
      s.owner.Joining? && (s.owner.joined < |s.workers| ==> s.workers[s.owner.joined].Exited?)
    case Check(w) => w < |s.workers| && s.workers[w].Checking?
    case PopSome(w) => w < |s.workers| && s.workers[w].Popping? && s.q.items != []
    case PopNone(w) => w < |s.workers| && s.workers[w].Popping? && s.q.items == []
    case RunStage(w) => w < |s.workers| && s.workers[w].Staging? && s.workers[w].done < |c.stages|
    case Save(w, _) => w < |s.workers| && s.workers[w].Staging? && s.workers[w].done >= |c.stages|
    case Finish(w) => w < |s.workers| && s.workers[w].Finishing?
    case ClearTable => true
  }

  function Become(s: State, w: nat, now: Worker): State
    requires w < |s.workers|
  {
    s.(workers := s.workers[w := now])
  }

  function Next(c: Config, s: State, a: Action): State
    requires Enabled(c, s, a)
  {
    match a
    case Submit(e) => s.(q := s.q.(items := s.q.items + [e]), submitted := s.submitted + [e])
    case Start =>
      if s.running then s
      else s.(running := true, owner := if c.numWorkers == 0 then Free else Spawning)
    case Spawn =>
      s.(workers := s.workers + [Checking], owner := if |s.workers| + 1 < c.numWorkers then Spawning else Free)
    case StopCall =>
      if s.running then s.(running := false, owner := Stopping) else s
    case QueueStop => s.(q := s.q.(stopped := true), owner := Joining(0))
    case Join =>
      if s.owner.joined < |s.workers| then s.(owner := Joining(s.owner.joined + 1))
      else s.(owner := Free, workers := [])
    case Check(w) => Become(s, w, if s.running then Popping else Exited)
    case PopSome(w) =>
      Become(s, w, Staging(|s.dequeued|, s.q.items[0], 0))
        .(q := s.q.(items := s.q.items[1..]), dequeued := s.dequeued + [s.q.items[0]])
    case PopNone(w) => Become(s, w, Checking)
    case RunStage(w) =>
      var x := s.workers[w];
      Become(s, w, Staging(x.ticket, c.stages[x.done](x.ticket, x.event).event, x.done + 1))
    case Save(w, ok) =>
      var x := s.workers[w];
      var s' := Become(s, w, Finishing(x.ticket));
      if !c.hasStorage then s'
      else if ok && CanInsert(s.table) then
        s'.(table := Insert(s.table, x.event), saves := s.saves + [Saved(x.ticket, s.table.lastId + 1)])
      else s'.(failed := s.failed + {x.ticket})
    case Finish(w) =>
      Become(s, w, Checking).(processed := s.processed + 1, finished := s.finished + {s.workers[w].ticket})
    case ClearTable => s.(table := Emptied(s.table), cleared := true, live := |s.saves|)
  }

  /** The steps that one worker takes. */
  predicate ByWorker(a: Action) {
    a.Check? || a.PopSome? || a.PopNone? || a.RunStage? || a.Save? || a.Finish?
  }

  ghost predicate Run(c: Config, s: State, acts: seq<Action>, s': State)
    decreases |acts|
  {
    if acts == [] then s' == s
    else Enabled(c, s, acts[0]) && Run(c, Next(c, s, acts[0]), acts[1..], s')
  }

  /** What a step does to the queue, in the terms to which QueueProtocol.RefinesAtomicQueue reduces the
      locks and notifications. */
  function QueueEffect(s: State, a: Action): QueueProtocol.Effect<ActivityEvent> {
    match a
    case Submit(e) => QueueProtocol.Appended(e)
    case PopSome(_) => if s.q.items == [] then QueueProtocol.Nothing else QueueProtocol.Took(s.q.items[0])
    case PopNone(_) => QueueProtocol.GaveUp
    case QueueStop => QueueProtocol.Stopped
    case _ => QueueProtocol.Nothing
  }

  /** Every step uses the queue as the atomic queue allows, and a popped event is handed on unchanged. */
  lemma UsesAtomicQueue(c: Config, s: State, a: Action)
    requires Enabled(c, s, a)
    ensures QueueProtocol.AtomicStep(s.q, QueueEffect(s, a), Next(c, s, a).q)
    ensures QueueEffect(s, a).Took? ==> Next(c, s, a).workers[a.w] == Staging(|s.dequeued|, QueueEffect(s, a).x, 0)
  {
  }

  ghost function QueueEffects(c: Config, s: State, acts: seq<Action>, s': State)
    : (effects: seq<QueueProtocol.Effect<ActivityEvent>>)
    requires Run(c, s, acts, s')
    decreases |acts|
  {
    if acts == [] then []
    else [QueueEffect(s, acts[0])] + QueueEffects(c, Next(c, s, acts[0]), acts[1..], s')
  }

  /** Every run of the pipeline uses the queue in a run of the atomic queue. */
  lemma {:induction false} RunsUseAtomicQueue(c: Config, s: State, acts: seq<Action>, s': State)
    requires Run(c, s, acts, s')
    ensures QueueProtocol.AtomicRun(s.q, QueueEffects(c, s, acts, s'), s'.q)
    decreases |acts|
  {
    if acts != [] {
      var next := Next(c, s, acts[0]);
      UsesAtomicQueue(c, s, acts[0]);
      RunsUseAtomicQueue(c, next, acts[1..], s');
      assert QueueEffects(c, s, acts, s')[1..] == QueueEffects(c, next, acts[1..], s');
    }
  }

  // ---- conservation ----

  predicate Holds(x: Worker) {
    x.Staging? || x.Finishing?
  }

  function InFlight(s: State): nat {
    Count(s.workers, Holds)
  }

  predicate HoldsTicket(s: State, w: int, t: nat) {
    0 <= w < |s.workers| && Holds(s.workers[w]) && s.workers[w].ticket == t
  }

  /** Every dequeued event is finished or in the hands of exactly one worker. */
  ghost predicate Conserved(s: State) {
    && s.submitted == s.dequeued + s.q.items
    && s.processed == |s.finished|
    && s.processed + InFlight(s) == |s.dequeued|
    && (forall t | t in s.finished :: t < |s.dequeued|)
    && (forall w, t: nat :: HoldsTicket(s, w, t) ==> t < |s.dequeued| && t !in s.finished)
    && (forall w, w', t: nat :: HoldsTicket(s, w, t) && HoldsTicket(s, w', t) ==> w == w')
    && (forall t: nat | t < |s.dequeued| && t !in s.finished :: exists w :: HoldsTicket(s, w, t))
  }

  lemma InFlightAfter(s: State, w: nat, now: Worker)
    requires w < |s.workers|
    ensures InFlight(Become(s, w, now)) ==
            InFlight(s) - (if Holds(s.workers[w]) then 1 else 0) + (if Holds(now) then 1 else 0)
  {
    CountUpdate(s.workers, w, now, Holds);
  }

  /** A worker that keeps its ticket, or had none and takes none. */
  lemma SameHoldings(s: State, w: nat, now: Worker)
    requires w < |s.workers| && Holds(now) == Holds(s.workers[w])
    requires Holds(now) ==> now.ticket == s.workers[w].ticket
    ensures InFlight(Become(s, w, now)) == InFlight(s)
    ensures forall v, t: nat :: HoldsTicket(Become(s, w, now), v, t) <==> HoldsTicket(s, v, t)
  {
    InFlightAfter(s, w, now);
  }

  lemma PopConserves(c: Config, s: State, w: nat)
    requires Conserved(s) && Enabled(c, s, PopSome(w))
    ensures Conserved(Next(c, s, PopSome(w)))
  {
    var s' := Next(c, s, PopSome(w));
    InFlightAfter(s, w, s'.workers[w]);
    assert HoldsTicket(s', w, |s.dequeued|);
    forall v, t: nat | HoldsTicket(s', v, t) ensures HoldsTicket(s, v, t) || (v == w && t == |s.dequeued|) {
    }
    forall t: nat | t < |s'.dequeued| && t !in s'.finished ensures exists v :: HoldsTicket(s', v, t) {
      if t < |s.dequeued| {
        var v :| HoldsTicket(s, v, t);
        assert HoldsTicket(s', v, t);
      }
    }
  }

  lemma FinishConserves(c: Config, s: State, w: nat)
    requires Conserved(s) && Enabled(c, s, Finish(w))
    ensures Conserved(Next(c, s, Finish(w)))
  {
    var s', mine := Next(c, s, Finish(w)), s.workers[w].ticket;
    InFlightAfter(s, w, Checking);
    assert HoldsTicket(s, w, mine);
    forall v, t: nat | HoldsTicket(s', v, t) ensures HoldsTicket(s, v, t) && t != mine {
      assert HoldsTicket(s, v, t);
    }
    forall t: nat | t < |s'.dequeued| && t !in s'.finished ensures exists v :: HoldsTicket(s', v, t) {
      var v :| HoldsTicket(s, v, t);
      assert HoldsTicket(s', v, t);
    }
  }

  /** Clearing `workers_` once everyone has been joined. */
  lemma ReturnConserves(c: Config, s: State)
    requires Conserved(s) && Phased(c, s) && s.owner == Joining(|s.workers|)
    ensures InFlight(s) == 0 && Conserved(Next(c, s, Join))
  {
    CountPositive(s.workers, Holds);
    var s' := Next(c, s, Join);
    forall t: nat | t < |s.dequeued| && t !in s.finished ensures false {
      var v :| HoldsTicket(s, v, t);
    }
  }

  /** A step that moves no event: the same holdings, queue and history. */
  lemma KeepsConserved(s: State, s': State)
    requires Conserved(s) && InFlight(s') == InFlight(s)
    requires s'.submitted == s.submitted && s'.dequeued == s.dequeued && s'.q.items == s.q.items
    requires s'.processed == s.processed && s'.finished == s.finished
    requires forall v, t: nat :: HoldsTicket(s', v, t) <==> HoldsTicket(s, v, t)
    ensures Conserved(s')
  {
  }

  lemma SubmitConserves(c: Config, s: State, e: ActivityEvent)
    requires Conserved(s)
    ensures Conserved(Next(c, s, Submit(e)))
  {
    var s' := Next(c, s, Submit(e));
    assert forall v, t: nat :: HoldsTicket(s', v, t) <==> HoldsTicket(s, v, t);
  }

  lemma SpawnConserves(c: Config, s: State)
    requires Conserved(s) && Enabled(c, s, Spawn)
    ensures Conserved(Next(c, s, Spawn))
  {
    CountAppend(s.workers, [Checking], Holds);
    KeepsConserved(s, Next(c, s, Spawn));
  }

  /** A worker's step between the pop and the finish. */
  lemma WorkerConserves(c: Config, s: State, a: Action)
    requires Conserved(s) && Enabled(c, s, a) && ByWorker(a) && !a.PopSome? && !a.Finish?
    ensures Conserved(Next(c, s, a))
  {
    var s' := Next(c, s, a);
    SameHoldings(s, a.w, s'.workers[a.w]);
    assert s'.workers == Become(s, a.w, s'.workers[a.w]).workers;
    KeepsConserved(s, s');
  }

  lemma NextConserves(c: Config, s: State, a: Action)
    requires Conserved(s) && Phased(c, s) && Enabled(c, s, a)
    ensures Conserved(Next(c, s, a))
  {
    if a.Submit? {
      SubmitConserves(c, s, a.e);
    } else if a.PopSome? {
      PopConserves(c, s, a.w);
    } else if a.Finish? {
      FinishConserves(c, s, a.w);
    } else if a.Spawn? {
      SpawnConserves(c, s);
    } else if a.Join? && s.owner.joined == |s.workers| {
      ReturnConserves(c, s);
    } else if ByWorker(a) {
      WorkerConserves(c, s, a);
    } else {
      assert Next(c, s, a).workers == s.workers;
      KeepsConserved(s, Next(c, s, a));
    }
  }

  // ---- phases of the controlling thread ----

  /** Workers exist only between a start and the return of the stop, at most `num_workers` of them;
      none leaves its loop while the pipeline runs, and those joined have left it. */
  ghost predicate Phased(c: Config, s: State) {
    && |s.workers| <= c.numWorkers
    && (s.owner.Free? && !s.running ==> s.workers == [])
    && (s.owner.Free? && s.running ==> |s.workers| == c.numWorkers)
    && (s.owner.Spawning? ==> s.running && |s.workers| < c.numWorkers)
    && (s.owner.Stopping? || s.owner.Joining? ==> !s.running)
    && (s.running ==> forall w | 0 <= w < |s.workers| :: !s.workers[w].Exited?)
    && (s.owner.Joining? ==> s.owner.joined <= |s.workers| && s.q.stopped)
    && (s.owner.Joining? ==> forall w | 0 <= w < s.owner.joined :: s.workers[w].Exited?)
  }

  lemma WorkerKeepsPhase(c: Config, s: State, a: Action)
    requires Phased(c, s) && Enabled(c, s, a) && ByWorker(a)
    ensures Phased(c, Next(c, s, a))
  {
    var s' := Next(c, s, a);
    assert s'.owner == s.owner && s'.running == s.running && s'.q.stopped == s.q.stopped;
    assert s'.workers == s.workers[a.w := s'.workers[a.w]];
    assert s.running ==> !s'.workers[a.w].Exited?;
  }

  lemma NextPhased(c: Config, s: State, a: Action)
    requires Phased(c, s) && Enabled(c, s, a)
    ensures Phased(c, Next(c, s, a))
  {
    if ByWorker(a) {
      WorkerKeepsPhase(c, s, a);
    }
  }

  // ---- what has been stored ----

  /** Row `id` of the table shows save `k`. */
  predicate ShowsSave(c: Config, s: State, k: nat)
    requires k < |s.saves| && s.saves[k].ticket < |s.dequeued|
  {
    var save := s.saves[k];
    && save.id in s.table.rows
    && s.table.rows[save.id] == Stored(StageFold(c.stages, save.ticket, s.dequeued[save.ticket]), save.id)
  }

  /** That row is the dequeued event after one pass through all stages. */
  ghost predicate ShowsProcessed(c: Config, s: State, k: nat)
    requires k < |s.saves| && s.saves[k].ticket < |s.dequeued|
  {
    var save := s.saves[k];
    && save.id in s.table.rows
    && exists es :: RunsThrough(c.stages, save.ticket, s.dequeued[save.ticket], es) &&
                    s.table.rows[save.id] == Stored(es[|c.stages|], save.id)
  }

  lemma ShownIsProcessed(c: Config, s: State, k: nat)
    requires k < |s.saves| && s.saves[k].ticket < |s.dequeued| && ShowsSave(c, s, k)
    ensures ShowsProcessed(c, s, k)
  {
    var es := FoldRunsThrough(c.stages, s.saves[k].ticket, s.dequeued[s.saves[k].ticket]);
  }

  predicate IsFinishing(s: State, t: nat) {
    exists w | 0 <= w < |s.workers| :: s.workers[w] == Finishing(t)
  }

  predicate PastSave(s: State, t: nat) {
    t in s.finished || IsFinishing(s, t)
  }

  predicate WasSaved(s: State, t: nat) {
    exists k | 0 <= k < |s.saves| :: s.saves[k].ticket == t
  }

  function Since(s: State): nat {
    if s.cleared then s.live else 0
  }

  /** The event in a worker's hands is the dequeued event after the stages run so far. */
  ghost predicate Carried(c: Config, s: State) {
    forall w | 0 <= w < |s.workers| && s.workers[w].Staging? :: Carries(c, s, w)
  }

  ghost predicate Carries(c: Config, s: State, w: int)
    requires 0 <= w < |s.workers|
  {
    var x := s.workers[w];
    && x.Staging? && x.ticket < |s.dequeued| && x.done <= |c.stages|
    && x.event == StageFold(c.stages[..x.done], x.ticket, s.dequeued[x.ticket])
  }

  /** Ids grow from save to save. */
  ghost predicate IdsGrow(c: Config, s: State) {
    && ValidTable(s.table) && c.table.lastId <= s.table.lastId
    && (forall k | 0 <= k < |s.saves| :: c.table.lastId < s.saves[k].id <= s.table.lastId)
    && (forall j, k | 0 <= j < k < |s.saves| :: s.saves[j].id < s.saves[k].id)
  }

  /** The table holds what it held at first (until it is cleared) and the saves since the last clear. */
  ghost predicate Imaged(c: Config, s: State) {
    && s.live <= |s.saves|
    && (forall k | 0 <= k < |s.saves| :: s.saves[k].ticket < |s.dequeued|)
    && (forall k | Since(s) <= k < |s.saves| :: ShowsSave(c, s, k))
    && (!s.cleared ==> forall id | id in c.table.rows :: id in s.table.rows && s.table.rows[id] == c.table.rows[id])
    && (forall id | id in s.table.rows ::
          (!s.cleared && id in c.table.rows) || exists k | Since(s) <= k < |s.saves| :: s.saves[k].id == id)
  }

  /** An event is saved at most once, and reaches the save step before it counts. */
  ghost predicate SavedOnce(c: Config, s: State) {
    && (forall j, k | 0 <= j < k < |s.saves| :: s.saves[j].ticket != s.saves[k].ticket)
    && (forall t: nat :: WasSaved(s, t) ==> t !in s.failed)
    && (forall t: nat :: WasSaved(s, t) || t in s.failed ==> PastSave(s, t))
    && (c.hasStorage ==> forall t: nat :: PastSave(s, t) ==> WasSaved(s, t) || t in s.failed)
    && (!c.hasStorage ==> s.saves == [] && s.failed == {})
  }

  lemma StageCarries(c: Config, s: State, a: Action)
    requires Carried(c, s) && Enabled(c, s, a) && (a.RunStage? || a.PopSome?)
    ensures Carries(c, Next(c, s, a), a.w)
  {
    if a.RunStage? {
      var x := s.workers[a.w];
      assert Carries(c, s, a.w);
      assert c.stages[..x.done + 1][..x.done] == c.stages[..x.done];
    } else {
      assert c.stages[..0] == [];
    }
  }

  lemma NextCarries(c: Config, s: State, a: Action)
    requires Carried(c, s) && Enabled(c, s, a)
    ensures Carried(c, Next(c, s, a))
  {
    var s' := Next(c, s, a);
    if a.RunStage? || a.PopSome? {
      StageCarries(c, s, a);
    }
    forall w | 0 <= w < |s'.workers| && s'.workers[w].Staging? ensures Carries(c, s', w) {
      if w < |s.workers| && s'.workers[w] == s.workers[w] {
        assert Carries(c, s, w);
        assert s'.dequeued[s.workers[w].ticket] == s.dequeued[s.workers[w].ticket];
      }
    }
  }

  lemma NextIdsGrow(c: Config, s: State, a: Action)
    requires IdsGrow(c, s) && Enabled(c, s, a)
    ensures IdsGrow(c, Next(c, s, a))
  {
    var s' := Next(c, s, a);
    if s'.saves != s.saves {
      ApplyKeepsTable(s.table, SaveWrite(s.workers[a.w].event, true));
      assert s'.saves[..|s.saves|] == s.saves;
    } else if a.ClearTable? {
      ApplyKeepsTable(s.table, ClearWrite);
    } else {
      assert s'.table == s.table;
    }
  }

  lemma SavedRowShown(c: Config, s: State, w: nat)
    requires Carried(c, s) && Enabled(c, s, Save(w, true)) && c.hasStorage && CanInsert(s.table)
    ensures ShowsSave(c, Next(c, s, Save(w, true)), |s.saves|)
  {
    assert Carries(c, s, w) && c.stages[..s.workers[w].done] == c.stages;
  }

  lemma OlderRowsShown(c: Config, s: State, w: nat, k: nat)
    requires IdsGrow(c, s) && Enabled(c, s, Save(w, true)) && c.hasStorage && CanInsert(s.table)
    requires k < |s.saves| && s.saves[k].ticket < |s.dequeued| && ShowsSave(c, s, k)
    ensures ShowsSave(c, Next(c, s, Save(w, true)), k)
  {
  }

  lemma RowsAccountedFor(c: Config, s: State, w: nat)
    requires Imaged(c, s) && Enabled(c, s, Save(w, true)) && c.hasStorage && CanInsert(s.table)
    ensures var s' := Next(c, s, Save(w, true));
            forall id | id in s'.table.rows ::
              (!s'.cleared && id in c.table.rows) || exists k | Since(s') <= k < |s'.saves| :: s'.saves[k].id == id
  {
    var s', n := Next(c, s, Save(w, true)), |s.saves|;
    assert s'.saves[n].id == s.table.lastId + 1;
    forall id | id in s.table.rows && (s.cleared || id !in c.table.rows)
      ensures exists k | Since(s') <= k < |s'.saves| :: s'.saves[k].id == id
    {
      var k :| Since(s) <= k < |s.saves| && s.saves[k].id == id;
      assert s'.saves[k].id == id;
    }
  }

  lemma SaveImaged(c: Config, s: State, w: nat)
    requires Imaged(c, s) && IdsGrow(c, s) && Carried(c, s) && ValidTable(c.table)
    requires Enabled(c, s, Save(w, true)) && c.hasStorage && CanInsert(s.table)
    ensures Imaged(c, Next(c, s, Save(w, true)))
  {
    var s' := Next(c, s, Save(w, true));
    assert s'.saves[..|s.saves|] == s.saves && Since(s') == Since(s);
    forall k | Since(s') <= k < |s'.saves| ensures ShowsSave(c, s', k) {
      if k < |s.saves| {
        OlderRowsShown(c, s, w, k);
      } else {
        SavedRowShown(c, s, w);
      }
    }
    RowsAccountedFor(c, s, w);
    assert forall k | 0 <= k < |s.saves| :: s'.saves[k] == s.saves[k];
  }

  lemma SameTableImaged(c: Config, s: State, s': State)
    requires Imaged(c, s)
    requires s'.table == s.table && s'.saves == s.saves && s'.cleared == s.cleared && s'.live == s.live
    requires s.dequeued <= s'.dequeued
    ensures Imaged(c, s')
  {
    forall k | Since(s') <= k < |s'.saves| ensures ShowsSave(c, s', k) {
      assert ShowsSave(c, s, k);
    }
  }

  lemma NextImaged(c: Config, s: State, a: Action)
    requires Imaged(c, s) && IdsGrow(c, s) && Carried(c, s) && ValidTable(c.table) && Enabled(c, s, a)
    ensures Imaged(c, Next(c, s, a))
  {
    if a.Save? && c.hasStorage && a.ok && CanInsert(s.table) {
      SaveImaged(c, s, a.w);
    } else if !a.ClearTable? {
      SameTableImaged(c, s, Next(c, s, a));
    }
  }

  /** An event about to be saved has not been saved before. */
  lemma NotYetSaved(c: Config, s: State, w: nat)
    requires Conserved(s) && w < |s.workers| && s.workers[w].Staging?
    ensures !PastSave(s, s.workers[w].ticket)
  {
    var t := s.workers[w].ticket;
    assert HoldsTicket(s, w, t);
    forall v | 0 <= v < |s.workers| && s.workers[v] == Finishing(t) ensures v == w {
      assert HoldsTicket(s, v, t);
    }
  }

  /** One worker's step, seen by the events past the save step. */
  lemma FinishingAfter(s: State, w: nat, now: Worker, t: nat)
    requires w < |s.workers|
    ensures now == Finishing(t) ==> IsFinishing(Become(s, w, now), t)
    ensures s.workers[w] != Finishing(t) && now != Finishing(t) ==>
              (IsFinishing(Become(s, w, now), t) <==> IsFinishing(s, t))
    ensures IsFinishing(Become(s, w, now), t) ==> IsFinishing(s, t) || now == Finishing(t)
    ensures IsFinishing(s, t) ==> IsFinishing(Become(s, w, now), t) || s.workers[w] == Finishing(t)
  {
    var s' := Become(s, w, now);
    assert s'.workers[w] == now;
    if IsFinishing(s, t) {
      var v :| 0 <= v < |s.workers| && s.workers[v] == Finishing(t);
      assert v != w ==> s'.workers[v] == Finishing(t);
    }
  }

  /** How the events past the save step change. */
  lemma PastSaveAfter(c: Config, s: State, a: Action, t: nat)
    requires Phased(c, s) && Enabled(c, s, a)
    ensures PastSave(Next(c, s, a), t) <==> PastSave(s, t) || (a.Save? && t == s.workers[a.w].ticket)
  {
    var s' := Next(c, s, a);
    if ByWorker(a) {
      FinishingAfter(s, a.w, s'.workers[a.w], t);
      assert s'.workers == Become(s, a.w, s'.workers[a.w]).workers;
    } else if a.Spawn? {
      assert forall v | 0 <= v < |s.workers| :: s'.workers[v] == s.workers[v];
    }
  }

  lemma WasSavedAfter(c: Config, s: State, a: Action, t: nat)
    requires Enabled(c, s, a)
    ensures var s' := Next(c, s, a);
            WasSaved(s', t) <==> WasSaved(s, t) || (s'.saves != s.saves && a.Save? && t == s.workers[a.w].ticket)
  {
    var s' := Next(c, s, a);
    if s'.saves != s.saves {
      assert s'.saves[|s.saves|].ticket == s.workers[a.w].ticket;
      if WasSaved(s, t) {
        var k :| 0 <= k < |s.saves| && s.saves[k].ticket == t;
        assert s'.saves[k].ticket == t;
      }
    }
  }

  lemma SaveSavesOnce(c: Config, s: State, w: nat, ok: bool)
    requires SavedOnce(c, s) && Conserved(s) && Phased(c, s) && Enabled(c, s, Save(w, ok))
    ensures SavedOnce(c, Next(c, s, Save(w, ok)))
  {
    var s', mine := Next(c, s, Save(w, ok)), s.workers[w].ticket;
    forall t: nat
      ensures PastSave(s', t) <==> PastSave(s, t) || t == mine
      ensures WasSaved(s', t) <==> WasSaved(s, t) || (s'.saves != s.saves && t == mine)
    {
      PastSaveAfter(c, s, Save(w, ok), t);
      WasSavedAfter(c, s, Save(w, ok), t);
    }
    NotYetSaved(c, s, w);
    assert forall k | 0 <= k < |s.saves| :: WasSaved(s, s.saves[k].ticket);
  }

  lemma NextSavedOnce(c: Config, s: State, a: Action)
    requires SavedOnce(c, s) && Conserved(s) && Phased(c, s) && Enabled(c, s, a)
    ensures SavedOnce(c, Next(c, s, a))
  {
    if a.Save? {
      SaveSavesOnce(c, s, a.w, a.ok);
    } else {
      var s' := Next(c, s, a);
      assert s'.saves == s.saves && s'.failed == s.failed;
      forall t: nat ensures PastSave(s', t) <==> PastSave(s, t) {
        PastSaveAfter(c, s, a, t);
      }
      assert forall t: nat :: WasSaved(s', t) <==> WasSaved(s, t);
    }
  }

  // ---- one worker saves in submission order ----

  ghost predicate InOrder(c: Config, s: State) {
    c.numWorkers <= 1 ==>
      && (forall j, k | 0 <= j < k < |s.saves| :: s.saves[j].ticket < s.saves[k].ticket)
      && (forall k | 0 <= k < |s.saves| :: s.saves[k].ticket < |s.dequeued|)
      && (forall w, k | 0 <= w < |s.workers| && s.workers[w].Staging? && 0 <= k < |s.saves| ::
            s.saves[k].ticket < s.workers[w].ticket)
  }

  lemma SaveInOrder(c: Config, s: State, w: nat, ok: bool)
    requires InOrder(c, s) && Carried(c, s) && Phased(c, s) && Enabled(c, s, Save(w, ok))
    ensures InOrder(c, Next(c, s, Save(w, ok)))
  {
  }

  lemma PopInOrder(c: Config, s: State, w: nat)
    requires InOrder(c, s) && Phased(c, s) && Enabled(c, s, PopSome(w))
    ensures InOrder(c, Next(c, s, PopSome(w)))
  {
  }

  lemma NextInOrder(c: Config, s: State, a: Action)
    requires InOrder(c, s) && Carried(c, s) && Phased(c, s) && Enabled(c, s, a)
    ensures InOrder(c, Next(c, s, a))
  {
    if a.Save? {
      SaveInOrder(c, s, a.w, a.ok);
    } else if a.PopSome? {
      PopInOrder(c, s, a.w);
    } else {
      var s' := Next(c, s, a);
      assert s'.saves == s.saves && s'.dequeued == s.dequeued;
      forall w | 0 <= w < |s'.workers| && s'.workers[w].Staging?
        ensures w < |s.workers| && s.workers[w].Staging? && s.workers[w].ticket == s'.workers[w].ticket
      {
      }
    }
  }

  // ---- all invariants, over all runs ----

  ghost predicate Inv(c: Config, s: State) {
    Phased(c, s) && Conserved(s) && Carried(c, s) && IdsGrow(c, s) && Imaged(c, s) && SavedOnce(c, s) && InOrder(c, s)
  }

  lemma InitImaged(c: Config)
    requires ValidTable(c.table)
    ensures IdsGrow(c, Init(c)) && Imaged(c, Init(c)) && InOrder(c, Init(c))
  {
  }

  lemma InitConserved(c: Config)
    ensures Phased(c, Init(c)) && Conserved(Init(c)) && Carried(c, Init(c))
  {
  }

  lemma InitSavedOnce(c: Config)
    ensures SavedOnce(c, Init(c))
  {
    assert forall t: nat :: !IsFinishing(Init(c), t);
  }

  lemma InitInv(c: Config)
    requires ValidTable(c.table)
    ensures Inv(c, Init(c))
  {
    InitConserved(c);
    InitImaged(c);
    InitSavedOnce(c);
  }

  lemma NextInv(c: Config, s: State, a: Action)
    requires ValidTable(c.table) && Inv(c, s) && Enabled(c, s, a)
    ensures Inv(c, Next(c, s, a))
  {
    NextPhased(c, s, a);
    NextConserves(c, s, a);
    NextCarries(c, s, a);
    NextIdsGrow(c, s, a);
    NextImaged(c, s, a);
    NextSavedOnce(c, s, a);
    NextInOrder(c, s, a);
  }

  lemma {:induction false} RunInv(c: Config, s: State, acts: seq<Action>, s': State)
    requires ValidTable(c.table) && Inv(c, s) && Run(c, s, acts, s')
    ensures Inv(c, s')
    decreases |acts|
  {
    if acts != [] {
      NextInv(c, s, acts[0]);
      RunInv(c, Next(c, s, acts[0]), acts[1..], s');
    }
  }

  /** In every reachable state, over any number of workers, starts and stops: what was dequeued,
      followed by what is queued, is what was submitted; every dequeued event has finished or is in
      the hands of exactly one worker; and the counter and the events in flight add up. */
  lemma NothingLostOrDoubled(c: Config, acts: seq<Action>, s: State)
    requires ValidTable(c.table) && Run(c, Init(c), acts, s)
    ensures s.submitted == s.dequeued + s.q.items
    ensures s.processed == |s.finished| && s.processed + InFlight(s) == |s.dequeued|
    ensures forall t: nat | t < |s.dequeued| ::
              t in s.finished <==> !exists w :: HoldsTicket(s, w, t)
    ensures forall t: nat, w, w' :: HoldsTicket(s, w, t) && HoldsTicket(s, w', t) ==> w == w'
  {
    InitInv(c);
    RunInv(c, Init(c), acts, s);
    FinishedIffNotHeld(s);
  }

  lemma FinishedIffNotHeld(s: State)
    requires Conserved(s)
    ensures forall t: nat | t < |s.dequeued| :: t in s.finished <==> !exists w :: HoldsTicket(s, w, t)
  {
    forall t: nat | t < |s.dequeued| ensures t in s.finished <==> !exists w :: HoldsTicket(s, w, t) {
      if exists w :: HoldsTicket(s, w, t) {
        var w :| HoldsTicket(s, w, t);
        assert t !in s.finished;
      }
    }
  }

  /** In every reachable state: each event past the save step was saved exactly once or its save
      failed; ids grow and are not reused, even across a clear; every save since the last clear is in
      the table as the event with all stages applied; and the table holds nothing else but rows that
      were there at first. With one worker, id order is submission order. */
  lemma StorageImage(c: Config, acts: seq<Action>, s: State)
    requires ValidTable(c.table) && Run(c, Init(c), acts, s)
    ensures forall j, k | 0 <= j < k < |s.saves| ::
              s.saves[j].id < s.saves[k].id && s.saves[j].ticket != s.saves[k].ticket
    ensures forall k | 0 <= k < |s.saves| :: s.saves[k].ticket < |s.dequeued| && s.saves[k].id > c.table.lastId
    ensures c.hasStorage ==> forall t: nat :: PastSave(s, t) <==> WasSaved(s, t) || t in s.failed
    ensures forall t: nat :: !(WasSaved(s, t) && t in s.failed)
    ensures forall k | Since(s) <= k < |s.saves| :: ShowsSave(c, s, k) && ShowsProcessed(c, s, k)
    ensures forall id | id in s.table.rows ::
              (!s.cleared && id in c.table.rows && s.table.rows[id] == c.table.rows[id])
              || exists k | Since(s) <= k < |s.saves| :: s.saves[k].id == id
    ensures c.numWorkers <= 1 ==>
              forall j, k | 0 <= j < k < |s.saves| :: s.saves[j].ticket < s.saves[k].ticket
  {
    InitInv(c);
    RunInv(c, Init(c), acts, s);
    forall k | Since(s) <= k < |s.saves| ensures ShowsProcessed(c, s, k) {
      ShownIsProcessed(c, s, k);
    }
  }

  // ---- shutdown ----

  /** `stop` has cleared `running_` and has not returned. */
  predicate Shutting(s: State) {
    s.owner.Stopping? || s.owner.Joining?
  }

  /** A worker that may still finish an event. */
  predicate MayFinish(x: Worker) {
    x.Popping? || Holds(x)
  }

  function Finishers(s: State): nat {
    Count(s.workers, MayFinish)
  }

  /** Steps left to a worker that will not be told to go on. */
  function StepsLeft(c: Config, x: Worker): nat {
    match x
    case Exited => 0
    case Checking => 1
    case Finishing(_) => 2
    case Staging(_, _, done) => 3 + (if done < |c.stages| then |c.stages| - done else 0)
    case Popping => 4 + |c.stages|
  }

  function WorkLeft(c: Config, workers: seq<Worker>): nat {
    if workers == [] then 0 else StepsLeft(c, workers[0]) + WorkLeft(c, workers[1..])
  }

  function OwnerLeft(s: State): nat {
    match s.owner
    case Stopping => |s.workers| + 2
    case Joining(k) => if k <= |s.workers| then |s.workers| - k + 1 else 0
    case _ => 0
  }

  lemma {:induction false} WorkLeftUpdate(c: Config, workers: seq<Worker>, w: nat, now: Worker)
    requires w < |workers|
    ensures WorkLeft(c, workers[w := now]) == WorkLeft(c, workers) - StepsLeft(c, workers[w]) + StepsLeft(c, now)
  {
    if w == 0 {
      assert workers[0 := now][1..] == workers[1..];
    } else {
      assert workers[w := now][1..] == workers[1..][w - 1 := now];
      WorkLeftUpdate(c, workers[1..], w - 1, now);
    }
  }

  lemma {:induction false} WorkLeftBound(c: Config, workers: seq<Worker>)
    ensures WorkLeft(c, workers) <= |workers| * (4 + |c.stages|)
  {
    if workers != [] {
      WorkLeftBound(c, workers[1..]);
      assert |workers| * (4 + |c.stages|) == (4 + |c.stages|) + |workers[1..]| * (4 + |c.stages|);
    }
  }

  /** The steps of the pipeline itself, as opposed to those of its environment. */
  predicate Own(a: Action) {
    !a.Submit? && !a.ClearTable?
  }

  /** While shutting down, each step of a worker brings it nearer to its exit. */
  lemma WorkerStepLeft(c: Config, s: State, a: Action)
    requires Shutting(s) && !s.running && ByWorker(a) && Enabled(c, s, a)
    ensures var s' := Next(c, s, a);
            s'.workers == s.workers[a.w := s'.workers[a.w]] &&
            StepsLeft(c, s'.workers[a.w]) < StepsLeft(c, s.workers[a.w])
    ensures MayFinish(Next(c, s, a).workers[a.w]) ==> MayFinish(s.workers[a.w])
    ensures a.Finish? ==> MayFinish(s.workers[a.w]) && !MayFinish(Next(c, s, a).workers[a.w])
  {
  }

  lemma FinishedGrowth(c: Config, s: State, a: Action)
    requires Enabled(c, s, a)
    ensures |Next(c, s, a).finished| <= |s.finished| + (if a.Finish? then 1 else 0)
  {
  }

  lemma ShutdownStep(c: Config, s: State, a: Action)
    requires Phased(c, s) && Shutting(s) && Enabled(c, s, a)
    ensures var s' := Next(c, s, a);
            && Finishers(s') + |s'.finished| <= Finishers(s) + |s.finished|
            && WorkLeft(c, s'.workers) + OwnerLeft(s') + (if Own(a) then 1 else 0)
                 <= WorkLeft(c, s.workers) + OwnerLeft(s)
  {
    var s' := Next(c, s, a);
    FinishedGrowth(c, s, a);
    if ByWorker(a) {
      WorkerStepLeft(c, s, a);
      WorkLeftUpdate(c, s.workers, a.w, s'.workers[a.w]);
      CountUpdate(s.workers, a.w, s'.workers[a.w], MayFinish);
      assert s'.owner == s.owner;
    }
  }

  /** Until it returns, `stop` never gets stuck: the pipeline itself can always move. */
  lemma ShutdownNeverStuck(c: Config, s: State)
    requires Phased(c, s) && Shutting(s)
    ensures exists a :: Own(a) && Enabled(c, s, a)
  {
    var a: Action := Join;
    if s.owner.Stopping? {
      a := QueueStop;
    } else if s.owner.joined < |s.workers| {
      var w := s.owner.joined;
      match s.workers[w] {
        case Exited =>
        case Checking => a := Check(w);
        case Popping => a := if s.q.items == [] then PopNone(w) else PopSome(w);
        case Staging(_, _, done) => a := if done < |c.stages| then RunStage(w) else Save(w, true);
        case Finishing(_) => a := Finish(w);
      }
    }
    assert Own(a) && Enabled(c, s, a);
  }

  function OwnSteps(acts: seq<Action>): nat {
    Count(acts, Own)
  }

  /** The run stays inside one call of `stop`. */
  ghost predicate StopRun(c: Config, s: State, acts: seq<Action>, s': State)
    decreases |acts|
  {
    if acts == [] then s' == s
    else Shutting(s) && Enabled(c, s, acts[0]) && StopRun(c, Next(c, s, acts[0]), acts[1..], s')
  }

  lemma {:induction false} StopRunBounds(c: Config, s: State, acts: seq<Action>, s': State)
    requires Phased(c, s) && StopRun(c, s, acts, s')
    ensures Phased(c, s')
    ensures Finishers(s') + |s'.finished| <= Finishers(s) + |s.finished|
    ensures OwnSteps(acts) + WorkLeft(c, s'.workers) + OwnerLeft(s') <= WorkLeft(c, s.workers) + OwnerLeft(s)
    decreases |acts|
  {
    if acts != [] {
      NextPhased(c, s, acts[0]);
      ShutdownStep(c, s, acts[0]);
      StopRunBounds(c, Next(c, s, acts[0]), acts[1..], s');
    }
  }

  /** From the moment `stop` clears `running_`: at most `num_workers` more events finish, the
      pipeline takes a bounded number of its own steps, and it can always take one until the call
      returns. On return nothing is in flight, the counter has counted every dequeued event, and
      the queue holds the rest of the submissions. */
  lemma BoundedShutdown(c: Config, before: seq<Action>, s: State, acts: seq<Action>, s': State)
    requires ValidTable(c.table) && Run(c, Init(c), before, s) && Shutting(s) && StopRun(c, s, acts, s')
    ensures |s'.finished| <= |s.finished| + c.numWorkers
    ensures OwnSteps(acts) <= c.numWorkers * (5 + |c.stages|) + 2
    ensures Shutting(s') ==> exists a :: Own(a) && Enabled(c, s', a)
    ensures !Shutting(s') ==>
              && InFlight(s') == 0 && s'.processed == |s'.dequeued|
              && s'.submitted == s'.dequeued + s'.q.items
  {
    ShutdownState(c, before, s, acts, s');
    StopRunBounds(c, s, acts, s');
    ShutdownBudget(c, s);
    if Shutting(s') {
      ShutdownNeverStuck(c, s');
    }
  }

  /** How much work a shutdown can have left. */
  lemma ShutdownBudget(c: Config, s: State)
    requires Phased(c, s)
    ensures WorkLeft(c, s.workers) + OwnerLeft(s) <= c.numWorkers * (5 + |c.stages|) + 2
    ensures Finishers(s) <= c.numWorkers
  {
    WorkLeftBound(c, s.workers);
    MoreWorkers(|s.workers|, c.numWorkers, 4 + |c.stages|);
  }

  /** Where a shutdown leaves the pipeline. */
  lemma ShutdownState(c: Config, before: seq<Action>, s: State, acts: seq<Action>, s': State)
    requires ValidTable(c.table) && Run(c, Init(c), before, s) && Shutting(s) && StopRun(c, s, acts, s')
    ensures Phased(c, s) && Phased(c, s')
    ensures !Shutting(s') ==>
              && InFlight(s') == 0 && s'.processed == |s'.dequeued|
              && s'.submitted == s'.dequeued + s'.q.items
  {
    InitInv(c);
    RunInv(c, Init(c), before, s);
    StopRunKeepsInv(c, s, acts, s');
  }

  lemma MoreWorkers(n: nat, m: nat, k: nat)
    requires n <= m
    ensures n * k + n + 2 <= m * (k + 1) + 2
  {
    assert m * (k + 1) - n * (k + 1) == (m - n) * (k + 1);
  }

  lemma ReturnLeavesNoWorkers(c: Config, s: State, a: Action)
    requires Shutting(s) && Enabled(c, s, a) && !Shutting(Next(c, s, a))
    ensures Next(c, s, a).workers == []
  {
  }

  lemma {:induction false} StopRunKeepsInv(c: Config, s: State, acts: seq<Action>, s': State)
    requires ValidTable(c.table) && Inv(c, s) && Shutting(s) && StopRun(c, s, acts, s')
    ensures Inv(c, s')
    ensures !Shutting(s') ==> s'.workers == []
    decreases |acts|
  {
    if acts != [] {
      var next := Next(c, s, acts[0]);
      NextInv(c, s, acts[0]);
      if Shutting(next) {
        StopRunKeepsInv(c, next, acts[1..], s');
      } else {
        ReturnLeavesNoWorkers(c, s, acts[0]);
        assert acts[1..] == [];
      }
    }
  }
}
