/** Store and index side by side: the start-up rebuild and the callback that all collectors share
    (apps/cli/main.cpp), and every interleaving of such callbacks. */
module Daemon {
  import opened Base
  import opened Text
  import opened Events
  import opened EventStores
  import opened InvertedIndexes
  import opened Calendar
  import QueryExecutors

  /** The rows dated up to `now`. */
  function DatedRows(rows: map<u64, ActivityEvent>, now: Clock): set<ActivityEvent> {
    set id | id in rows && DatedWithin(rows[id], 0, now) :: rows[id]
  }

  lemma DatedRowsAre(rows: map<u64, ActivityEvent>, now: Clock, e: ActivityEvent)
    ensures e in DatedRows(rows, now) <==> e.timestamp <= now && exists id :: id in rows && rows[id] == e
  {
  }

  /** The index is rebuilt by adding the rows dated up to now, oldest first. */
  method RebuildIndex(store: EventStore, index: InvertedIndex, now: Clock)
    requires store.Valid() && index.Valid()
    modifies index
    ensures index.Valid() && index.indexed == old(index.indexed) + DatedRows(store.rows, now)
  {
    var events := store.FindByTimeRange(0, now);
    for i := 0 to |events|
      invariant index.Valid() && index.indexed == old(index.indexed) + Elements(events[..i])
    {
      assert events[..i + 1] == events[..i] + [events[i]];
      assert Elements(events[..i + 1]) == Elements(events[..i]) + {events[i]};
      index.Add(events[i]);
    }
    assert events[..|events|] == events;
    assert Elements(events) == DatedRows(store.rows, now);
  }

  /** Save, adopt the id, index. When the save throws nothing has happened to either. */
  method OnEvent(store: EventStore, index: InvertedIndex, e: ActivityEvent, ok: bool) returns (captured: bool)
    requires store.Valid() && index.Valid()
    modifies store, index
    ensures store.Valid() && index.Valid()
    ensures store.View() == Apply(old(store.View()), SaveWrite(e, ok))
    ensures captured <==> ok && CanInsert(old(store.View()))
    ensures index.indexed == old(index.indexed) + (if captured then {e.(id := store.lastId)} else {})
  {
    var id := store.Save(e, ok);
    if id == None {
      return false;
    }
    var event := e.(id := id.value);
    index.Add(event);
    captured := true;
  }

  // ---- interleavings ----

  /** One collector thread: between callbacks, or between the save and the add of one. */
  datatype Callback = Waiting | Holding(event: ActivityEvent)

  /** What the store held when the daemon started, and when that was. */
  datatype Startup = Startup(table: Table, now: Clock)

  datatype State = State(table: Table, indexed: set<ActivityEvent>, callbacks: seq<Callback>)

  datatype Action = SaveStep(t: nat, e: ActivityEvent, ok: bool) | AddStep(t: nat)

  function Init(u: Startup, collectors: nat): State {
    State(u.table, DatedRows(u.table.rows, u.now), seq(collectors, _ => Waiting))
  }

  predicate Enabled(s: State, a: Action) {
    && a.t < |s.callbacks|
    && (if a.SaveStep? then s.callbacks[a.t].Waiting? else s.callbacks[a.t].Holding?)
  }

  function Next(s: State, a: Action): State
    requires Enabled(s, a)
  {
    match a
    case SaveStep(t, e, ok) =>
      if ok && CanInsert(s.table) then
        s.(table := Insert(s.table, e), callbacks := s.callbacks[t := Holding(e.(id := s.table.lastId + 1))])
      else s
    case AddStep(t) =>
      s.(indexed := s.indexed + {s.callbacks[t].event}, callbacks := s.callbacks[t := Waiting])
  }

  ghost predicate Run(s: State, acts: seq<Action>, s': State)
    decreases |acts|
  {
    if acts == [] then s' == s
    else Enabled(s, acts[0]) && Run(Next(s, acts[0]), acts[1..], s')
  }

  /** Event `e` is what row `e.id` was written from. */
  predicate Backed(t: Table, e: ActivityEvent) {
    e.id in t.rows && t.rows[e.id] == Stored(e, e.id)
  }

  predicate HeldBy(s: State, t: int, id: u64) {
    0 <= t < |s.callbacks| && s.callbacks[t].Holding? && s.callbacks[t].event.id == id
  }

  /** Saved and not yet indexed. */
  predicate IsHeld(s: State, id: u64) {
    exists t | 0 <= t < |s.callbacks| :: HeldBy(s, t, id)
  }

  /** Stored before the daemon started, but dated later than that. */
  predicate SkippedAtStartup(u: Startup, id: u64) {
    id in u.table.rows && !DatedWithin(u.table.rows[id], 0, u.now)
  }

  predicate IsIndexed(s: State, id: u64) {
    exists e | e in s.indexed :: e.id == id
  }

  /** Texts are read back through C pointers, so no row holds a NUL. */
  predicate Readable(t: Table) {
    forall id | id in t.rows :: TextsFreeOfNul(t.rows[id])
  }

  /** Rows are kept, and every event indexed or held is what its row was written from. */
  ghost predicate AllBacked(u: Startup, s: State) {
    && ValidTable(s.table) && u.table.lastId <= s.table.lastId
    && (forall id | id in u.table.rows :: id in s.table.rows && s.table.rows[id] == u.table.rows[id])
    && (forall e | e in s.indexed :: Backed(s.table, e))
    && (forall t | 0 <= t < |s.callbacks| && s.callbacks[t].Holding? ::
          Backed(s.table, s.callbacks[t].event) && s.callbacks[t].event.id > u.table.lastId)
  }

  /** Every stored id is indexed, held by one callback, or skipped, and only one of these. */
  ghost predicate Accounted(u: Startup, s: State) {
    && (forall t, t', id :: HeldBy(s, t, id) && HeldBy(s, t', id) ==> t == t')
    && (forall id :: IsHeld(s, id) ==> !IsIndexed(s, id))
    && (forall id | id in s.table.rows :: IsIndexed(s, id) || IsHeld(s, id) || SkippedAtStartup(u, id))
    && (forall id | SkippedAtStartup(u, id) :: !IsIndexed(s, id))
  }

  ghost predicate IdsUnique(s: State) {
    forall e, e' | e in s.indexed && e' in s.indexed && e.id == e'.id :: e == e'
  }

  ghost predicate Inv(u: Startup, s: State) {
    AllBacked(u, s) && Accounted(u, s) && IdsUnique(s)
  }

  lemma InitInv(u: Startup, collectors: nat)
    requires ValidTable(u.table) && Readable(u.table)
    ensures Inv(u, Init(u, collectors))
  {
    var s := Init(u, collectors);
    forall e | e in s.indexed ensures Backed(s.table, e) && !SkippedAtStartup(u, e.id) {
      StoredUnchanged(e, e.id);
    }
    forall id | id in s.table.rows ensures IsIndexed(s, id) || SkippedAtStartup(u, id) {
      if DatedWithin(u.table.rows[id], 0, u.now) {
        assert u.table.rows[id] in s.indexed;
      }
    }
  }

  /** A new id is neither held nor indexed. */
  lemma NewIdIsFree(u: Startup, s: State)
    requires AllBacked(u, s)
    ensures var id: u64 := s.table.lastId + 1; id !in s.table.rows && !IsHeld(s, id) && !IsIndexed(s, id)
  {
    forall v, id: u64 | HeldBy(s, v, id) ensures id in s.table.rows {
      assert Backed(s.table, s.callbacks[v].event);
    }
    forall x | x in s.indexed ensures x.id in s.table.rows {
      assert Backed(s.table, x);
    }
  }

  lemma SaveEffects(s: State, t: nat, e: ActivityEvent)
    requires Enabled(s, SaveStep(t, e, true)) && CanInsert(s.table)
    ensures var s', id' := Next(s, SaveStep(t, e, true)), s.table.lastId + 1;
            && (forall v, id: u64 :: HeldBy(s', v, id) <==> HeldBy(s, v, id) || (v == t && id == id'))
            && (forall id: u64 :: IsHeld(s', id) <==> IsHeld(s, id) || id == id')
  {
    var s' := Next(s, SaveStep(t, e, true));
    assert HeldBy(s', t, s.table.lastId + 1);
    forall id: u64 | IsHeld(s, id) ensures IsHeld(s', id) {
      var v :| 0 <= v < |s.callbacks| && HeldBy(s, v, id);
      assert HeldBy(s', v, id);
    }
  }

  lemma SaveKeepsBacked(u: Startup, s: State, t: nat, e: ActivityEvent)
    requires AllBacked(u, s) && Enabled(s, SaveStep(t, e, true)) && CanInsert(s.table)
    ensures AllBacked(u, Next(s, SaveStep(t, e, true)))
  {
    var s' := Next(s, SaveStep(t, e, true));
    assert Backed(s'.table, s'.callbacks[t].event);
    forall x | Backed(s.table, x) ensures Backed(s'.table, x) {
    }
  }

  lemma SaveKeepsInv(u: Startup, s: State, t: nat, e: ActivityEvent)
    requires Inv(u, s) && Enabled(s, SaveStep(t, e, true)) && CanInsert(s.table) && ValidTable(u.table)
    ensures Inv(u, Next(s, SaveStep(t, e, true)))
  {
    var s' := Next(s, SaveStep(t, e, true));
    NewIdIsFree(u, s);
    SaveEffects(s, t, e);
    SaveKeepsBacked(u, s, t, e);
    assert forall id: u64 :: IsIndexed(s', id) <==> IsIndexed(s, id);
  }

  /** The id moves from the callback to the index. */
  lemma AddEffects(s: State, t: nat)
    requires Enabled(s, AddStep(t))
    requires forall v, v', id :: HeldBy(s, v, id) && HeldBy(s, v', id) ==> v == v'
    ensures var s', mine := Next(s, AddStep(t)), s.callbacks[t].event.id;
            && IsHeld(s, mine)
            && (forall v, id: u64 :: HeldBy(s', v, id) <==> HeldBy(s, v, id) && v != t)
            && (forall id: u64 :: IsHeld(s', id) <==> IsHeld(s, id) && id != mine)
  {
    var s', mine := Next(s, AddStep(t)), s.callbacks[t].event;
    assert HeldBy(s, t, mine.id);
    forall id: u64 | IsHeld(s, id) && id != mine.id ensures IsHeld(s', id) {
      var v :| 0 <= v < |s.callbacks| && HeldBy(s, v, id);
      assert HeldBy(s', v, id);
    }
  }

  lemma AddIndexes(s: State, t: nat)
    requires Enabled(s, AddStep(t))
    ensures forall id: u64 :: IsIndexed(Next(s, AddStep(t)), id) <==> IsIndexed(s, id) || id == s.callbacks[t].event.id
  {
    var s', mine := Next(s, AddStep(t)), s.callbacks[t].event;
    assert mine in s'.indexed;
    forall id: u64 | IsIndexed(s, id) ensures IsIndexed(s', id) {
      var x :| x in s.indexed && x.id == id;
      assert x in s'.indexed;
    }
  }

  lemma AddKeepsUnique(s: State, t: nat)
    requires IdsUnique(s) && Enabled(s, AddStep(t)) && !IsIndexed(s, s.callbacks[t].event.id)
    ensures IdsUnique(Next(s, AddStep(t)))
  {
    var s' := Next(s, AddStep(t));
    forall e, e' | e in s'.indexed && e' in s'.indexed && e.id == e'.id ensures e == e' {
      assert e in s.indexed ==> IsIndexed(s, e.id);
      assert e' in s.indexed ==> IsIndexed(s, e'.id);
    }
  }

  lemma AddKeepsInv(u: Startup, s: State, t: nat)
    requires Inv(u, s) && Enabled(s, AddStep(t)) && ValidTable(u.table)
    ensures Inv(u, Next(s, AddStep(t)))
  {
    AddEffects(s, t);
    AddIndexes(s, t);
    AddKeepsUnique(s, t);
    assert Backed(s.table, s.callbacks[t].event) && s.callbacks[t].event.id > u.table.lastId;
  }

  lemma {:induction false} RunKeepsInv(u: Startup, s: State, acts: seq<Action>, s': State)
    requires Inv(u, s) && ValidTable(u.table) && Run(s, acts, s')
    ensures Inv(u, s')
    decreases |acts|
  {
    if acts != [] {
      var a := acts[0];
      if a.AddStep? {
        AddKeepsInv(u, s, a.t);
      } else if a.ok && CanInsert(s.table) {
        SaveKeepsInv(u, s, a.t, a.e);
      }
      RunKeepsInv(u, Next(s, a), acts[1..], s');
    }
  }

  /** In every interleaving: every indexed event is stored, and is the event its row was written
      from; the stored ids missing from the index are exactly those of callbacks between save and
      add, and those stored earlier but dated after the start. */
  lemma StoreAndIndexAgree(u: Startup, collectors: nat, acts: seq<Action>, s: State)
    requires ValidTable(u.table) && Readable(u.table) && Run(Init(u, collectors), acts, s)
    ensures forall e | e in s.indexed :: e.id in s.table.rows && s.table.rows[e.id] == Stored(e, e.id)
    ensures forall id | id in s.table.rows :: !IsIndexed(s, id) <==> IsHeld(s, id) || SkippedAtStartup(u, id)
    ensures QueryExecutors.IndexAgrees(s.table.rows, s.indexed) <==> forall e | e in s.indexed :: TextsFreeOfNul(e)
  {
    InitInv(u, collectors);
    RunKeepsInv(u, Init(u, collectors), acts, s);
    forall e | e in s.indexed ensures QueryExecutors.IsRow(s.table.rows, e) <==> TextsFreeOfNul(e) {
      StoredUnchanged(e, e.id);
      assert Backed(s.table, e);
    }
  }

  /** The rows that a rebuild from all but the skipped ones would index. */
  function RebuildSet(u: Startup, s: State): set<ActivityEvent> {
    set id | id in s.table.rows && !SkippedAtStartup(u, id) :: s.table.rows[id]
  }

  /** No callback is between save and add, and the index holds no text with a NUL. */
  ghost predicate Settled(s: State) {
    && (forall t | 0 <= t < |s.callbacks| :: s.callbacks[t].Waiting?)
    && (forall e | e in s.indexed :: TextsFreeOfNul(e))
  }

  /** The index built event by event holds every row but those skipped at the start, and nothing else,
      exactly when no callback is between save and add and no text indexed holds a NUL. */
  lemma IncrementalIsRebuild(u: Startup, collectors: nat, acts: seq<Action>, s: State)
    requires ValidTable(u.table) && Readable(u.table) && Run(Init(u, collectors), acts, s)
    ensures s.indexed == RebuildSet(u, s) <==> Settled(s)
  {
    InitInv(u, collectors);
    RunKeepsInv(u, Init(u, collectors), acts, s);
    if Settled(s) {
      StoreAndIndexAgree(u, collectors, acts, s);
      SettledIsRebuild(u, s);
    } else if s.indexed == RebuildSet(u, s) {
      RebuildIsSettled(u, s);
    }
  }

  lemma SettledIsRebuild(u: Startup, s: State)
    requires Inv(u, s) && Settled(s) && QueryExecutors.IndexAgrees(s.table.rows, s.indexed)
    ensures s.indexed == RebuildSet(u, s)
  {
    forall e | e in s.indexed ensures e in RebuildSet(u, s) {
      assert IsIndexed(s, e.id) && QueryExecutors.IsRow(s.table.rows, e);
    }
    forall id | id in s.table.rows && !SkippedAtStartup(u, id) ensures s.table.rows[id] in s.indexed {
      assert !IsHeld(s, id);
      var x :| x in s.indexed && x.id == id;
      assert QueryExecutors.IsRow(s.table.rows, x);
    }
  }

  /** The row of an event between save and add is one a rebuild would index. */
  lemma HeldIsMissing(u: Startup, s: State, t: nat)
    requires Inv(u, s) && ValidTable(u.table) && t < |s.callbacks| && s.callbacks[t].Holding?
    ensures s.indexed != RebuildSet(u, s)
  {
    var e := s.callbacks[t].event;
    assert Backed(s.table, e) && HeldBy(s, t, e.id) && !IsIndexed(s, e.id);
    assert !SkippedAtStartup(u, e.id);
    assert s.table.rows[e.id] in RebuildSet(u, s) && s.table.rows[e.id].id == e.id;
  }

  lemma RebuildIsSettled(u: Startup, s: State)
    requires Inv(u, s) && s.indexed == RebuildSet(u, s) && ValidTable(u.table)
    ensures Settled(s)
  {
    forall t | 0 <= t < |s.callbacks| ensures s.callbacks[t].Waiting? {
      if s.callbacks[t].Holding? {
        HeldIsMissing(u, s, t);
      }
    }
    forall e | e in s.indexed ensures TextsFreeOfNul(e) {
      assert Backed(s.table, e);
      StoredUnchanged(e, e.id);
    }
  }

  /** A rebuild at a later time compared with the settled index: it would leave out exactly the rows
      dated after its own clock, and bring in exactly the rows dated after the daemon's start that
      were stored before and that its clock has caught up with. */
  lemma IncrementalVersusRebuild(u: Startup, collectors: nat, acts: seq<Action>, s: State, now: Clock)
    requires ValidTable(u.table) && Readable(u.table) && Run(Init(u, collectors), acts, s) && Settled(s)
    ensures var rows := s.table.rows;
            && s.indexed - DatedRows(rows, now) ==
                 (set id | id in rows && !SkippedAtStartup(u, id) && !DatedWithin(rows[id], 0, now) :: rows[id])
            && DatedRows(rows, now) - s.indexed ==
                 (set id | id in rows && SkippedAtStartup(u, id) && DatedWithin(rows[id], 0, now) :: rows[id])
    ensures s.indexed == DatedRows(s.table.rows, now) <==>
            forall id | id in s.table.rows :: SkippedAtStartup(u, id) <==> !DatedWithin(s.table.rows[id], 0, now)
  {
    IncrementalIsRebuild(u, collectors, acts, s);
    InitInv(u, collectors);
    RunKeepsInv(u, Init(u, collectors), acts, s);
    RowsCompared(u, s, now);
  }

  lemma RowsCompared(u: Startup, s: State, now: Clock)
    requires ValidTable(s.table)
    ensures var rows, kept, dated := s.table.rows, RebuildSet(u, s), DatedRows(s.table.rows, now);
            && kept - dated ==
                 (set id | id in rows && !SkippedAtStartup(u, id) && !DatedWithin(rows[id], 0, now) :: rows[id])
            && dated - kept ==
                 (set id | id in rows && SkippedAtStartup(u, id) && DatedWithin(rows[id], 0, now) :: rows[id])
            && (kept == dated <==>
                forall id | id in rows :: SkippedAtStartup(u, id) <==> !DatedWithin(rows[id], 0, now))
  {
    forall id | id in s.table.rows
      ensures s.table.rows[id] in RebuildSet(u, s) <==> !SkippedAtStartup(u, id)
      ensures s.table.rows[id] in DatedRows(s.table.rows, now) <==> DatedWithin(s.table.rows[id], 0, now)
    {
      assert s.table.rows[id].id == id;
    }
  }
}
