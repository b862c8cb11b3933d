/** The event table behind `EventStore`: rows under ever-growing ids (event_store.cpp). */
module EventStores {
  import opened Base
  import opened Text
  import opened Events
  import Sorting

  /** The largest SQLite row id. AUTOINCREMENT refuses to insert after it has been used. */
  const MAX_ROW_ID: int := I64_LIMIT - 1

  /** `lastId` is the AUTOINCREMENT counter, which deleting rows does not reset. */
  datatype Table = Table(rows: map<u64, ActivityEvent>, lastId: nat)

  ghost predicate ValidTable(t: Table) {
    && t.lastId <= MAX_ROW_ID
    && forall id | id in t.rows :: 0 < id <= t.lastId && t.rows[id].id == id
  }

  /** What survives binding a string by its C pointer with length -1. */
  function CString(s: string): (r: string)
    ensures r <= s && 0 as char !in r
    ensures |r| < |s| ==> s[|r|] == 0 as char
    ensures r == s <==> 0 as char !in s
  {
    if s == [] || s[0] == 0 as char then [] else [s[0]] + CString(s[1..])
  }

  /** The event that a row written from `e` reads back as. */
  function Stored(e: ActivityEvent, id: u64): ActivityEvent {
    e.(id := id, kind := ParseType(TypeName(e.kind)), source := CString(e.source), content := CString(e.content))
  }

  predicate TextsFreeOfNul(e: ActivityEvent) {
    0 as char !in e.source && 0 as char !in e.content
  }

  /** A stored event reads back unchanged, but for its new id, exactly when its texts hold no NUL. */
  lemma StoredUnchanged(e: ActivityEvent, id: u64)
    ensures Stored(e, id) == e.(id := id) <==> TextsFreeOfNul(e)
  {
    TypeNameReads(e.kind);
    var r, copy := Stored(e, id), e.(id := id);
    assert r == copy <==> r.source == copy.source && r.content == copy.content;
  }

  predicate CanInsert(t: Table) {
    t.lastId < MAX_ROW_ID
  }

  function Insert(t: Table, e: ActivityEvent): Table
    requires CanInsert(t)
  {
    var id: u64 := t.lastId + 1;
    Table(t.rows[id := Stored(e, id)], id)
  }

  function Emptied(t: Table): Table {
    t.(rows := map[])
  }

  // ---- ids over any history of saves and clears ----

  /** `ok` says whether the environment lets the insert succeed. */
  datatype Write = SaveWrite(e: ActivityEvent, ok: bool) | ClearWrite

  function Apply(t: Table, w: Write): Table {
    match w
    case ClearWrite => Emptied(t)
    case SaveWrite(e, ok) => if ok && CanInsert(t) then Insert(t, e) else t
  }

  function ApplyAll(t: Table, ws: seq<Write>): Table
    decreases |ws|
  {
    if ws == [] then t else ApplyAll(Apply(t, ws[0]), ws[1..])
  }

  /** Writes happen one after another. */
  lemma {:induction false} AppliedInTurn(t: Table, a: seq<Write>, b: seq<Write>)
    ensures ApplyAll(t, a + b) == ApplyAll(ApplyAll(t, a), b)
    decreases |a|
  {
    if a == [] {
      assert a + b == b;
    } else {
      assert (a + b)[1..] == a[1..] + b;
      AppliedInTurn(Apply(t, a[0]), a[1..], b);
    }
  }

  /** The ids that the saves among `ws` returned, in order. */
  function IssuedIds(t: Table, ws: seq<Write>): seq<u64>
    decreases |ws|
  {
    if ws == [] then []
    else
      var t' := Apply(t, ws[0]);
      (if t'.lastId > t.lastId then [t'.lastId as u64] else []) + IssuedIds(t', ws[1..])
  }

  /** Ids grow strictly and are never used twice, whatever is cleared in between. */
  lemma {:induction false} IdsNeverReused(t: Table, ws: seq<Write>)
    requires ValidTable(t)
    ensures ValidTable(ApplyAll(t, ws))
    ensures forall k | 0 <= k < |IssuedIds(t, ws)| :: t.lastId < IssuedIds(t, ws)[k] <= ApplyAll(t, ws).lastId
    ensures forall j, k | 0 <= j < k < |IssuedIds(t, ws)| :: IssuedIds(t, ws)[j] < IssuedIds(t, ws)[k]
    ensures forall id | id in ApplyAll(t, ws).rows :: id in t.rows || id in IssuedIds(t, ws)
    ensures t.lastId <= ApplyAll(t, ws).lastId
    decreases |ws|
  {
    if ws != [] {
      var t' := Apply(t, ws[0]);
      ApplyKeepsTable(t, ws[0]);
      IdsNeverReused(t', ws[1..]);
      var rest := IssuedIds(t', ws[1..]);
      assert IssuedIds(t, ws) == (if t'.lastId > t.lastId then [t'.lastId as u64] else []) + rest;
    }
  }

  lemma ApplyKeepsTable(t: Table, w: Write)
    requires ValidTable(t)
    ensures ValidTable(Apply(t, w)) && t.lastId <= Apply(t, w).lastId
    ensures forall id | id in Apply(t, w).rows :: id in t.rows || (id == Apply(t, w).lastId && id > t.lastId)
  {
  }

  // ---- the store object ----

  predicate SignedNotLater(a: ActivityEvent, b: ActivityEvent) {
    Signed(a.timestamp) <= Signed(b.timestamp)
  }

  /** `timestamp >= ? AND timestamp <= ?` on signed 64-bit integers. */
  predicate DatedWithin(e: ActivityEvent, start: u64, end: u64) {
    Signed(start) <= Signed(e.timestamp) <= Signed(end)
  }

  /** For limits below 2^63 the comparison is that of the numbers; an event dated at or beyond 2^63 reads
      as negative, and comes before every other. */
  lemma SignedComparison(a: ActivityEvent, b: ActivityEvent, start: u64, end: u64)
    requires start < 0x8000_0000_0000_0000 && end < 0x8000_0000_0000_0000
    ensures DatedWithin(a, start, end) <==> start <= a.timestamp <= end
    ensures b.timestamp < 0x8000_0000_0000_0000 ==>
              (SignedNotLater(a, b) <==> a.timestamp <= b.timestamp || a.timestamp >= 0x8000_0000_0000_0000)
  {
  }

  /** `results` lists the rows that satisfy `p`, once each. */
  ghost predicate Selects(rows: map<u64, ActivityEvent>, p: ActivityEvent -> bool, results: seq<ActivityEvent>) {
    && NoDuplicates(results)
    && forall e :: e in results <==> e.id in rows && rows[e.id] == e && p(e)
  }

  /** `std::sort` and `ORDER BY` rearrange a selection without losing or repeating a row. */
  lemma SelectsPermuted(rows: map<u64, ActivityEvent>, p: ActivityEvent -> bool,
                        s: seq<ActivityEvent>, r: seq<ActivityEvent>)
    requires Selects(rows, p, s) && multiset(r) == multiset(s)
    ensures Selects(rows, p, r)
  {
    Sorting.SameElements(r, s);
    NoDuplicatesPermuted(s, r);
  }

  lemma {:induction false} OccursOnce<T>(s: seq<T>, x: T)
    requires NoDuplicates(s)
    ensures multiset(s)[x] <= 1
  {
    if s != [] {
      assert s == [s[0]] + s[1..];
      OccursOnce(s[1..], x);
      assert s[0] !in s[1..];
    }
  }

  lemma NoDuplicatesPermuted<T>(s: seq<T>, r: seq<T>)
    requires NoDuplicates(s) && multiset(r) == multiset(s)
    ensures NoDuplicates(r)
  {
    forall i, j | 0 <= i < j < |r| ensures r[i] != r[j] {
      OccursOnce(s, r[i]);
      assert r == r[..i] + [r[i]] + r[i + 1..j] + [r[j]] + r[j + 1..];
    }
  }

  class EventStore {
    var rows: map<u64, ActivityEvent>
    var lastId: nat

    function View(): Table
      reads this
    {
      Table(rows, lastId)
    }

    ghost predicate Valid()
      reads this
    {
      ValidTable(View())
    }

    constructor ()
      ensures Valid() && View() == Table(map[], 0)
    {
      rows, lastId := map[], 0;
    }

    /** `None` stands for the exception; `ok` is whether SQLite performs the insert. */
    method Save(e: ActivityEvent, ok: bool) returns (r: Option<u64>)
      requires Valid()
      modifies this
      ensures Valid()
      ensures View() == Apply(old(View()), SaveWrite(e, ok))
      ensures r == if ok && CanInsert(old(View())) then Some(old(lastId) + 1) else None
      ensures r.Some? <==> ok && old(lastId) < 0x7FFF_FFFF_FFFF_FFFF
    {
      if !ok || lastId >= MAX_ROW_ID {
        return None;
      }
      var id: u64 := lastId + 1;
      lastId := id;
      rows := rows[id := Stored(e, id)];
      r := Some(id);
    }

    /** Rows whose insert fails are skipped silently. */
    method SaveBatch(events: seq<ActivityEvent>, ok: seq<bool>)
      requires Valid() && |ok| == |events|
      modifies this
      ensures Valid()
      ensures View() == ApplyAll(old(View()),
                                 seq(|events|, i requires 0 <= i < |events| => SaveWrite(events[i], ok[i])))
    {
      ghost var writes := seq(|events|, i requires 0 <= i < |events| => SaveWrite(events[i], ok[i]));
      assert writes[0..] == writes;
      for i := 0 to |events|
        invariant Valid()
        invariant ApplyAll(View(), writes[i..]) == ApplyAll(old(View()), writes)
      {
        assert writes[i..][0] == writes[i] && writes[i..][1..] == writes[i + 1..];
        var _ := Save(events[i], ok[i]);
      }
    }

    /** A row that carries the id, and none exactly when no row does. */
    method FindById(id: u64) returns (r: Option<ActivityEvent>)
      requires Valid()
      ensures r.Some? ==> r.value.id == id && Selects(rows, (e: ActivityEvent) => e.id == id, [r.value])
      ensures r == None ==> Selects(rows, (e: ActivityEvent) => e.id == id, [])
    {
      r := if id in rows then Some(rows[id]) else None;
    }

    method Select(p: ActivityEvent -> bool) returns (results: seq<ActivityEvent>)
      requires Valid()
      ensures Selects(rows, p, results)
      ensures Sorting.SortedBy(SignedNotLater, results)
    {
      var found: seq<ActivityEvent> := [];
      var todo := rows.Keys;
      while todo != {}
        invariant todo <= rows.Keys && NoDuplicates(found)
        invariant forall e :: e in found <==> e.id in rows && e.id !in todo && rows[e.id] == e && p(e)
      {
        var id :| id in todo;
        todo := todo - {id};
        if p(rows[id]) {
          found := found + [rows[id]];
        }
      }
      results := Sorting.StdSort(found, SignedNotLater);
      SelectsPermuted(rows, p, found, results);
    }

    method FindByTimeRange(start: u64, end: u64) returns (results: seq<ActivityEvent>)
      requires Valid()
      ensures Selects(rows, (e: ActivityEvent) => DatedWithin(e, start, end), results)
      ensures Sorting.SortedBy(SignedNotLater, results)
      ensures start < I64_LIMIT && end < I64_LIMIT ==> OldestFirst(results)
    {
      results := Select((e: ActivityEvent) => DatedWithin(e, start, end));
      if start < I64_LIMIT && end < I64_LIMIT {
        forall i, j | 0 <= i < j < |results| ensures results[i].timestamp <= results[j].timestamp {
          assert results[i] in results && results[j] in results;
          assert SignedNotLater(results[i], results[j]);
          SignedComparison(results[i], results[j], start, end);
          SignedComparison(results[j], results[j], start, end);
        }
      }
    }

    /** The query compares the stored type text. */
    method FindByType(kind: EventType) returns (results: seq<ActivityEvent>)
      requires Valid()
      ensures Selects(rows, (e: ActivityEvent) => e.kind == kind, results)
      ensures Sorting.SortedBy(SignedNotLater, results)
    {
      var name := TypeName(kind);
      results := Select((e: ActivityEvent) => TypeName(e.kind) == name);
      forall e: ActivityEvent ensures TypeName(e.kind) == name <==> e.kind == kind {
        TypeNameRoundTrip(kind);
      }
    }

    method Clear()
      requires Valid()
      modifies this
      ensures Valid() && View() == Apply(old(View()), ClearWrite)
    {
      rows := map[];
    }
  }
}
