/** The queue itself: what the mutex guards, and each section that runs under it
    (concurrent_queue.hpp). */
module ConcurrentQueues {
  import opened Base

  /** `queue_` and `stopped_`. */
  datatype Contents<T> = Contents(items: seq<T>, stopped: bool)

  /** The predicate both waits test. */
  predicate Ready<T>(q: Contents<T>) {
    q.items != [] || q.stopped
  }

  /** What a popper learns from one look at the queue under the lock. */
  datatype Attempt<T> = Returned(value: Option<T>) | MustWait

  /** One evaluation of the wait predicate, and the pop that follows it under the same lock.
      `lastLook` is the evaluation that `wait_for` makes once its time is up. */
  function PopAttempt<T>(q: Contents<T>, lastLook: bool): (Attempt<T>, Contents<T>) {
    if !Ready(q) && !lastLook then (MustWait, q)
    else if q.items == [] then (Returned(None), q)
    else (Returned(Some(q.items[0])), q.(items := q.items[1..]))
  }

  class ConcurrentQueue<T> {
    var queue: seq<T>
    var stopped: bool

    function View(): Contents<T>
      reads this
    {
      Contents(queue, stopped)
    }

    constructor ()
      ensures View() == Contents([], false)
    {
      queue, stopped := [], false;
    }

    method Push(item: T)
      modifies this
      ensures View() == Contents(old(queue) + [item], old(stopped))
    {
      queue := queue + [item];
    }

    method TryPop() returns (r: Option<T>)
      modifies this
      ensures stopped == old(stopped)
      ensures r == None <==> old(queue) == []
      ensures r == None ==> queue == []
      ensures r.Some? ==> [r.value] + queue == old(queue)
    {
      if queue == [] {
        return None;
      }
      r := Some(queue[0]);
      queue := queue[1..];
    }

    /** The locked part of `pop` (`lastLook` false) and `pop_for`: it waits on exactly while the queue is
        empty, nobody has stopped it and time is not up. */
    method PopLocked(lastLook: bool) returns (r: Attempt<T>)
      modifies this
      ensures (r, View()) == PopAttempt(old(View()), lastLook)
      ensures stopped == old(stopped)
      ensures r.MustWait? <==> old(queue) == [] && !old(stopped) && !lastLook
      ensures r == Returned(None) <==> old(queue) == [] && (old(stopped) || lastLook)
      ensures r.MustWait? || r == Returned(None) ==> queue == old(queue)
      ensures r.Returned? && r.value.Some? ==> [r.value.value] + queue == old(queue)
    {
      if !Ready(View()) && !lastLook {
        return MustWait;
      }
      if queue == [] {
        return Returned(None);
      }
      r := Returned(Some(queue[0]));
      queue := queue[1..];
    }

    method Stop()
      modifies this
      ensures View() == Contents(old(queue), true)
    {
      stopped := true;
    }
  }
}

/** Counting the members of a sequence that satisfy a predicate. */
module Counting {

  function Count<T>(s: seq<T>, p: T -> bool): (n: nat)
    ensures n <= |s|
  {
    if s == [] then 0 else (if p(s[0]) then 1 else 0) + Count(s[1..], p)
  }

  lemma {:induction false} CountUpdate<T>(s: seq<T>, i: nat, x: T, p: T -> bool)
    requires i < |s|
    ensures Count(s[i := x], p) == Count(s, p) - (if p(s[i]) then 1 else 0) + (if p(x) then 1 else 0)
  {
    if i == 0 {
      assert s[0 := x][1..] == s[1..];
    } else {
      assert s[i := x][1..] == s[1..][i - 1 := x];
      CountUpdate(s[1..], i - 1, x, p);
    }
  }

  lemma {:induction false} CountPositive<T>(s: seq<T>, p: T -> bool)
    ensures Count(s, p) > 0 <==> exists i :: 0 <= i < |s| && p(s[i])
  {
    if s != [] {
      CountPositive(s[1..], p);
      if exists i :: 0 <= i < |s| && p(s[i]) {
        var i :| 0 <= i < |s| && p(s[i]);
        if i > 0 {
          assert p(s[1..][i - 1]);
        }
      }
      if exists i :: 0 <= i < |s[1..]| && p(s[1..][i]) {
        var i :| 0 <= i < |s[1..]| && p(s[1..][i]);
        assert p(s[i + 1]);
      }
    }
  }

  lemma {:induction false} CountAppend<T>(s: seq<T>, t: seq<T>, p: T -> bool)
    ensures Count(s + t, p) == Count(s, p) + Count(t, p)
  {
    if s == [] {
      assert s + t == t;
    } else {
      assert (s + t)[1..] == s[1..] + t;
      CountAppend(s[1..], t, p);
    }
  }

  /** Two sequences that agree on a predicate place by place satisfy it equally often. */
  lemma {:induction false} CountSame<T>(s: seq<T>, t: seq<T>, p: T -> bool)
    requires |s| == |t| && forall i | 0 <= i < |s| :: p(s[i]) == p(t[i])
    ensures Count(s, p) == Count(t, p)
  {
    if s != [] {
      assert p(s[0]) == p(t[0]);
      assert forall i | 0 <= i < |s[1..]| :: s[1..][i] == s[i + 1] && t[1..][i] == t[i + 1];
      CountSame(s[1..], t[1..], p);
    }
  }
}

/** Every interleaving of `push`, `try_pop`, `pop`, `pop_for` and `stop` by any number of threads
    over one mutex and one condition variable. A section under the mutex is one step; the
    notification after it is another. */
module QueueProtocol {
  import opened Base
  import opened ConcurrentQueues
  import opened Counting

  datatype Thread =
    | Idle
    | Notifying                           // pushed, has yet to call notify_one
    | Broadcasting                        // set stopped_, has yet to call notify_all
    | Asleep(timed: bool)                 // blocked on the condition variable
    | Awake(timed: bool, expired: bool)   // unblocked, has yet to look at the queue again

  datatype State<T> = State(
    q: Contents<T>,
    threads: seq<Thread>,
    pushed: seq<T>,        // every item ever pushed, in order
    popped: seq<T>)        // every item ever returned by a pop, in order

  function Init<T>(n: nat): State<T> {
    State(Contents([], false), seq(n, _ => Idle), [], [])
  }

  datatype Action<T> =
    | Push(t: nat, x: T)
    | NotifyOne(t: nat, chosen: nat)   // `chosen` is the sleeper the library unblocks, if there is one
    | TryPop(t: nat)
    | Pop(t: nat, timed: bool)         // pop, or pop_for when timed
    | Spurious(t: nat)
    | TimeOut(t: nat)                  // a sleeper's time is up
    | Expire(t: nat)                   // time is up between the notification and the lock
    | Recheck(t: nat)
    | Stop(t: nat)
    | NotifyAll(t: nat)

  predicate SomeAsleep<T>(s: State<T>) {
    exists i | 0 <= i < |s.threads| :: s.threads[i].Asleep?
  }

  predicate Enabled<T>(s: State<T>, a: Action<T>) {
    && a.t < |s.threads|
    && match a
       case Push(t, _) => s.threads[t].Idle?
       case NotifyOne(t, w) =>
         s.threads[t].Notifying? && (SomeAsleep(s) ==> w < |s.threads| && s.threads[w].Asleep?)
       case TryPop(t) => s.threads[t].Idle?
       case Pop(t, _) => s.threads[t].Idle?
       case Spurious(t) => s.threads[t].Asleep?
       case TimeOut(t) => s.threads[t].Asleep? && s.threads[t].timed
       case Expire(t) => s.threads[t].Awake? && s.threads[t].timed
       case Recheck(t) => s.threads[t].Awake?
       case Stop(t) => s.threads[t].Idle?
       case NotifyAll(t) => s.threads[t].Broadcasting?
  }

  function Become<T>(s: State<T>, t: nat, now: Thread): State<T>
    requires t < |s.threads|
  {
    s.(threads := s.threads[t := now])
  }

  /** A look at the queue by thread `t`: it returns to its caller or goes to sleep. */
  function Look<T>(s: State<T>, t: nat, timed: bool, lastLook: bool): State<T>
    requires t < |s.threads|
  {
    var (r, q) := PopAttempt(s.q, lastLook);
    match r
    case MustWait => Become(s, t, Asleep(timed))
    case Returned(None) => Become(s, t, Idle)
    case Returned(Some(x)) => Become(s, t, Idle).(q := q, popped := s.popped + [x])
  }

  function Wake(th: Thread): Thread {
    if th.Asleep? then Awake(th.timed, false) else th
  }

  function Next<T>(s: State<T>, a: Action<T>): State<T>
    requires Enabled(s, a)
  {
    match a
    case Push(t, x) =>
      Become(s, t, Notifying).(q := s.q.(items := s.q.items + [x]), pushed := s.pushed + [x])
    case NotifyOne(t, w) =>
      var s' := Become(s, t, Idle);
      if SomeAsleep(s) then Become(s', w, Wake(s.threads[w])) else s'
    case TryPop(t) =>
      if s.q.items == [] then s
      else s.(q := s.q.(items := s.q.items[1..]), popped := s.popped + [s.q.items[0]])
    case Pop(t, timed) => Look(s, t, timed, false)
    case Spurious(t) => Become(s, t, Wake(s.threads[t]))
    case TimeOut(t) => Become(s, t, Awake(true, true))
    case Expire(t) => Become(s, t, Awake(true, true))
    case Recheck(t) => Look(s, t, s.threads[t].timed, s.threads[t].expired)
    case Stop(t) => Become(s, t, Broadcasting).(q := s.q.(stopped := true))
    case NotifyAll(t) =>
      var s' := Become(s, t, Idle);
      s'.(threads := seq(|s.threads|, i requires 0 <= i < |s.threads| => Wake(s'.threads[i])))
  }

  /** `acts` leads from `s` to `s'`. */
  ghost predicate Run<T>(s: State<T>, acts: seq<Action<T>>, s': State<T>)
    decreases |acts|
  {
    if acts == [] then s' == s
    else Enabled(s, acts[0]) && Run(Next(s, acts[0]), acts[1..], s')
  }

  // ---- no wake-up is lost ----

  predicate IsNotifying(th: Thread) { th.Notifying? }

  predicate IsAwake(th: Thread) { th.Awake? }

  predicate IsBroadcasting(th: Thread) { th.Broadcasting? }

  function Notifiers<T>(s: State<T>): nat { Count(s.threads, IsNotifying) }

  function Awakes<T>(s: State<T>): nat { Count(s.threads, IsAwake) }

  function Broadcasters<T>(s: State<T>): nat { Count(s.threads, IsBroadcasting) }

  ghost predicate Inv<T>(s: State<T>) {
    && s.pushed == s.popped + s.q.items
    && (SomeAsleep(s) ==> |s.q.items| <= Awakes(s) + Notifiers(s))
    && (SomeAsleep(s) && s.q.stopped ==> Broadcasters(s) > 0)
  }

  /** How one thread's change shows in the three counts. */
  lemma CountsAfter<T>(s: State<T>, t: nat, now: Thread)
    requires t < |s.threads|
    ensures var was, s' := s.threads[t], Become(s, t, now);
            && Notifiers(s') == Notifiers(s) - (if was.Notifying? then 1 else 0) + (if now.Notifying? then 1 else 0)
            && Awakes(s') == Awakes(s) - (if was.Awake? then 1 else 0) + (if now.Awake? then 1 else 0)
            && Broadcasters(s') == Broadcasters(s) - (if was.Broadcasting? then 1 else 0)
                                   + (if now.Broadcasting? then 1 else 0)
  {
    CountUpdate(s.threads, t, now, IsNotifying);
    CountUpdate(s.threads, t, now, IsAwake);
    CountUpdate(s.threads, t, now, IsBroadcasting);
  }

  /** After notify_all nobody sleeps. */
  lemma NobodyAsleepAfterBroadcast<T>(s: State<T>, t: nat)
    requires Enabled(s, NotifyAll(t))
    ensures !SomeAsleep(Next(s, NotifyAll(t)))
  {
    var s' := Next(s, NotifyAll(t));
    forall i | 0 <= i < |s'.threads| ensures !s'.threads[i].Asleep? {
    }
  }

  /** One thread's change leaves the other sleepers asleep. */
  lemma SleepersAfter<T>(s: State<T>, t: nat, now: Thread)
    requires t < |s.threads|
    ensures SomeAsleep(Become(s, t, now)) ==> SomeAsleep(s) || now.Asleep?
  {
    var s' := Become(s, t, now);
    if SomeAsleep(s') {
      var i :| 0 <= i < |s'.threads| && s'.threads[i].Asleep?;
      assert i != t ==> s.threads[i].Asleep?;
    }
  }

  lemma LookKeepsInv<T>(s: State<T>, t: nat, timed: bool, lastLook: bool)
    requires t < |s.threads| && Inv(s) && (s.threads[t].Idle? || s.threads[t].Awake?)
    ensures Inv(Look(s, t, timed, lastLook))
  {
    var now := if PopAttempt(s.q, lastLook).0.MustWait? then Asleep(timed) else Idle;
    CountsAfter(s, t, now);
    SleepersAfter(s, t, now);
  }

  lemma NotifyOneKeepsInv<T>(s: State<T>, t: nat, w: nat)
    requires Inv(s) && Enabled(s, NotifyOne(t, w))
    ensures Inv(Next(s, NotifyOne(t, w)))
  {
    CountsAfter(s, t, Idle);
    SleepersAfter(s, t, Idle);
    if SomeAsleep(s) {
      CountsAfter(Become(s, t, Idle), w, Wake(s.threads[w]));
      SleepersAfter(Become(s, t, Idle), w, Wake(s.threads[w]));
    }
  }

  lemma WakeKeepsInv<T>(s: State<T>, t: nat, now: Thread)
    requires Inv(s) && t < |s.threads| && (s.threads[t].Asleep? || s.threads[t].Awake?) && now.Awake?
    ensures Inv(Become(s, t, now))
  {
    CountsAfter(s, t, now);
    SleepersAfter(s, t, now);
  }

  lemma NextKeepsInv<T>(s: State<T>, a: Action<T>)
    requires Inv(s) && Enabled(s, a)
    ensures Inv(Next(s, a))
  {
    match a
    case Push(t, x) =>
      CountsAfter(s, t, Notifying);
      SleepersAfter(s, t, Notifying);
    case NotifyOne(t, w) => NotifyOneKeepsInv(s, t, w);
    case TryPop(t) =>
    case Pop(t, timed) => LookKeepsInv(s, t, timed, false);
    case Spurious(t) => WakeKeepsInv(s, t, Wake(s.threads[t]));
    case TimeOut(t) => WakeKeepsInv(s, t, Awake(true, true));
    case Expire(t) => WakeKeepsInv(s, t, Awake(true, true));
    case Recheck(t) => LookKeepsInv(s, t, s.threads[t].timed, s.threads[t].expired);
    case Stop(t) =>
      CountsAfter(s, t, Broadcasting);
      SleepersAfter(s, t, Broadcasting);
      CountPositive(Next(s, a).threads, IsBroadcasting);
      assert IsBroadcasting(Next(s, a).threads[t]);
    case NotifyAll(t) =>
      NobodyAsleepAfterBroadcast(s, t);
  }

  lemma {:induction false} RunKeepsInv<T>(s: State<T>, acts: seq<Action<T>>, s': State<T>)
    requires Inv(s) && Run(s, acts, s')
    ensures Inv(s')
    decreases |acts|
  {
    if acts != [] {
      NextKeepsInv(s, acts[0]);
      RunKeepsInv(Next(s, acts[0]), acts[1..], s');
    }
  }

  lemma InitInv<T>(n: nat)
    ensures Inv(Init<T>(n))
  {
  }

  /** No thread is about to notify or to look at the queue again. */
  ghost predicate Quiescent<T>(s: State<T>) {
    forall i | 0 <= i < |s.threads| :: s.threads[i].Idle? || s.threads[i].Asleep?
  }

  /** No lost wake-up, in every reachable state: sleepers imply that each queued item has a thread
      awake or a notification still to come, and that a stop has its broadcast still to come. At
      rest, sleepers imply an empty queue that nobody stopped. */
  lemma NoLostWakeUp<T>(n: nat, acts: seq<Action<T>>, s: State<T>)
    requires Run(Init(n), acts, s)
    ensures SomeAsleep(s) ==> |s.q.items| <= Awakes(s) + Notifiers(s)
    ensures SomeAsleep(s) && s.q.stopped ==> Broadcasters(s) > 0
    ensures SomeAsleep(s) && Quiescent(s) ==> s.q.items == [] && !s.q.stopped
  {
    InitInv<T>(n);
    RunKeepsInv(Init(n), acts, s);
    CountPositive(s.threads, IsNotifying);
    CountPositive(s.threads, IsAwake);
    CountPositive(s.threads, IsBroadcasting);
  }

  /** What was popped, followed by what is queued, is what was pushed: nothing is lost, repeated
      or reordered. */
  lemma FirstInFirstOut<T>(n: nat, acts: seq<Action<T>>, s: State<T>)
    requires Run(Init(n), acts, s)
    ensures s.pushed == s.popped + s.q.items
  {
    InitInv<T>(n);
    RunKeepsInv(Init(n), acts, s);
  }

  // ---- what a pop answers ----

  /** A look at the queue puts its caller to sleep exactly when there is nothing to take, nobody has
      stopped the queue and time is not up; else the call ends, with the oldest item if there is one. */
  lemma LookAnswers<T>(s: State<T>, a: Action<T>)
    requires Enabled(s, a) && (a.Pop? || a.Recheck?)
    ensures var s', expired := Next(s, a), a.Recheck? && s.threads[a.t].expired;
            && (s'.threads[a.t].Asleep? <==> s.q.items == [] && !s.q.stopped && !expired)
            && (!s'.threads[a.t].Asleep? ==> s'.threads[a.t] == Idle)
            && s'.q.stopped == s.q.stopped && s'.pushed == s.pushed
            && (if s.q.items == [] then s'.q.items == [] && s'.popped == s.popped
                else [s.q.items[0]] + s'.q.items == s.q.items && s'.popped == s.popped + [s.q.items[0]])
  {
  }

  /** A timed pop can always end: its time can run out, whereupon its next look takes the oldest item if
      there is one, and gives up otherwise. */
  lemma TimedPopCanEnd<T>(s: State<T>, t: nat)
    requires t < |s.threads| && s.threads[t] == Asleep(true)
    ensures Enabled(s, TimeOut(t)) && Enabled(Next(s, TimeOut(t)), Recheck(t))
    ensures var s' := Next(Next(s, TimeOut(t)), Recheck(t));
            && s'.threads[t] == Idle
            && (if s.q.items == [] then s'.q == s.q && s'.popped == s.popped
                else s'.popped == s.popped + [s.q.items[0]] && s'.q == s.q.(items := s.q.items[1..]))
  {
    LookAnswers(Next(s, TimeOut(t)), Recheck(t));
  }

  /** Once its time is up, a pop waits for nothing but its look: whatever others do in between, it stays
      awake, and then it ends. */
  lemma {:induction false} ExpiredPopEnds<T>(s: State<T>, acts: seq<Action<T>>, s': State<T>, t: nat)
    requires Run(s, acts, s') && t < |s.threads| && s.threads[t] == Awake(true, true)
    requires forall a | a in acts :: !(a.Recheck? && a.t == t)
    ensures t < |s'.threads| && s'.threads[t] == Awake(true, true)
    ensures Enabled(s', Recheck(t)) && Next(s', Recheck(t)).threads[t] == Idle
    decreases |acts|
  {
    if acts == [] {
      LookAnswers(s, Recheck(t));
    } else {
      assert acts[0] in acts;
      ExpiredPopEnds(Next(s, acts[0]), acts[1..], s', t);
    }
  }

  /** Only a timed pop can be past its deadline. */
  ghost predicate DeadlinesTimed<T>(s: State<T>) {
    forall t | 0 <= t < |s.threads| && s.threads[t].Awake? && s.threads[t].expired :: s.threads[t].timed
  }

  lemma {:induction false} RunKeepsDeadlines<T>(s: State<T>, acts: seq<Action<T>>, s': State<T>)
    requires DeadlinesTimed(s) && Run(s, acts, s')
    ensures DeadlinesTimed(s')
    decreases |acts|
  {
    if acts != [] {
      RunKeepsDeadlines(Next(s, acts[0]), acts[1..], s');
    }
  }

  /** A blocking pop gives up only after a stop, and only on an empty queue. */
  lemma BlockingPopNeedsStop<T>(n: nat, acts: seq<Action<T>>, s: State<T>, a: Action<T>)
    requires Run(Init(n), acts, s) && Enabled(s, a) && EffectOf(s, a).GaveUp?
    requires (a.Pop? && !a.timed) || (a.Recheck? && !s.threads[a.t].timed)
    ensures s.q.stopped && s.q.items == []
  {
    RunKeepsDeadlines(Init(n), acts, s);
    LookAnswers(s, a);
  }

  // ---- the protocol is an atomic queue ----

  /** What a caller sees happen: the operations of a queue without locks or waiting. */
  datatype Effect<T> = Nothing | Appended(x: T) | Took(x: T) | GaveUp | Stopped

  /** What the atomic queue allows: only the oldest item is taken, and only an empty queue given up on. */
  ghost predicate Allowed<T>(q: Contents<T>, e: Effect<T>) {
    match e
    case Took(x) => q.items != [] && x == q.items[0]
    case GaveUp => q.items == []
    case _ => true
  }

  ghost function Applied<T>(q: Contents<T>, e: Effect<T>): Contents<T>
    requires Allowed(q, e)
  {
    match e
    case Appended(x) => q.(items := q.items + [x])
    case Took(_) => q.(items := q.items[1..])
    case Stopped => q.(stopped := true)
    case _ => q
  }

  ghost predicate AtomicStep<T>(q: Contents<T>, e: Effect<T>, q': Contents<T>) {
    Allowed(q, e) && q' == Applied(q, e)
  }

  /** The effect of a step, read off the call that makes it and what that call returns. */
  ghost function EffectOf<T>(s: State<T>, a: Action<T>): Effect<T>
    requires Enabled(s, a)
  {
    var s' := Next(s, a);
    match a
    case Push(_, x) => Appended(x)
    case Stop(_) => Stopped
    case TryPop(_) => if |s'.popped| > |s.popped| then Took(s'.popped[|s.popped|]) else GaveUp
    case Pop(t, _) =>
      if |s'.popped| > |s.popped| then Took(s'.popped[|s.popped|])
      else if s'.threads[t].Idle? then GaveUp else Nothing
    case Recheck(t) =>
      if |s'.popped| > |s.popped| then Took(s'.popped[|s.popped|])
      else if s'.threads[t].Idle? then GaveUp else Nothing
    case _ => Nothing
  }

  /** Every step of the protocol is one step of the atomic queue. A pop takes the oldest item or
      gives up on an empty queue; a waiting pop gives up only after a stop or past its deadline. */
  lemma RefinesAtomicQueue<T>(s: State<T>, a: Action<T>)
    requires Enabled(s, a)
    ensures AtomicStep(s.q, EffectOf(s, a), Next(s, a).q)
    ensures EffectOf(s, a).GaveUp? && !a.TryPop? ==> s.q.stopped || (a.Recheck? && s.threads[a.t].expired)
    ensures EffectOf(s, a).Took? ==> Next(s, a).popped == s.popped + [EffectOf(s, a).x]
  {
  }

  /** `effects` lead the atomic queue from `q` to `q'`. */
  ghost predicate AtomicRun<T>(q: Contents<T>, effects: seq<Effect<T>>, q': Contents<T>)
    decreases |effects|
  {
    if effects == [] then q' == q
    else Allowed(q, effects[0]) && AtomicRun(Applied(q, effects[0]), effects[1..], q')
  }

  ghost function EffectsOf<T>(s: State<T>, acts: seq<Action<T>>, s': State<T>): seq<Effect<T>>
    requires Run(s, acts, s')
    decreases |acts|
  {
    if acts == [] then [] else [EffectOf(s, acts[0])] + EffectsOf(Next(s, acts[0]), acts[1..], s')
  }

  /** Every run of the protocol, seen by its callers, is a run of the atomic queue. */
  lemma {:induction false} RunsAreAtomic<T>(s: State<T>, acts: seq<Action<T>>, s': State<T>)
    requires Run(s, acts, s')
    ensures AtomicRun(s.q, EffectsOf(s, acts, s'), s'.q)
    decreases |acts|
  {
    if acts != [] {
      var next := Next(s, acts[0]);
      RefinesAtomicQueue(s, acts[0]);
      RunsAreAtomic(next, acts[1..], s');
      assert EffectsOf(s, acts, s')[1..] == EffectsOf(next, acts[1..], s');
    }
  }

  // ---- the notifications in progress always run out ----

  /** Steps of threads that are already awake: no new call, no spurious wake-up, no timeout. */
  predicate Internal<T>(a: Action<T>) {
    a.NotifyOne? || a.NotifyAll? || a.Recheck?
  }

  function Pending<T>(s: State<T>): nat {
    Broadcasters(s) * (|s.threads| + 1) + 2 * Notifiers(s) + Awakes(s)
  }

  lemma InternalStepCounts<T>(s: State<T>, a: Action<T>)
    requires Enabled(s, a) && Internal(a)
    ensures |Next(s, a).threads| == |s.threads|
    ensures Pending(Next(s, a)) < Pending(s)
  {
    match a
    case NotifyOne(t, w) =>
      CountsAfter(s, t, Idle);
      if SomeAsleep(s) {
        CountsAfter(Become(s, t, Idle), w, Wake(s.threads[w]));
      }
    case Recheck(t) =>
      CountsAfter(s, t, Asleep(s.threads[t].timed));
      CountsAfter(s, t, Idle);
    case NotifyAll(t) =>
      var s', s'' := Become(s, t, Idle), Next(s, a);
      CountsAfter(s, t, Idle);
      CountSame(s'.threads, s''.threads, IsBroadcasting);
      CountSame(s'.threads, s''.threads, IsNotifying);
      BroadcastCosts(Broadcasters(s), |s.threads|);
  }

  lemma BroadcastCosts(b: nat, n: nat)
    requires b > 0
    ensures (b - 1) * (n + 1) == b * (n + 1) - (n + 1)
  {
  }

  /** However the threads already awake are scheduled, at most `Pending(s)` of their steps remain,
      and until the state is at rest one of them can move. */
  lemma {:induction false} NotificationsRunOut<T>(s: State<T>, acts: seq<Action<T>>, s': State<T>)
    requires Run(s, acts, s') && forall a | a in acts :: Internal(a)
    ensures |acts| <= Pending(s) - Pending(s')
    ensures !Quiescent(s') ==> exists a: Action<T> :: Internal(a) && Enabled(s', a)
    decreases |acts|
  {
    if acts != [] {
      InternalStepCounts(s, acts[0]);
      NotificationsRunOut(Next(s, acts[0]), acts[1..], s');
    } else if !Quiescent(s') {
      SomeoneCanMove(s');
    }
  }

  lemma SomeoneCanMove<T>(s: State<T>)
    requires !Quiescent(s)
    ensures exists a: Action<T> :: Internal(a) && Enabled(s, a)
  {
    var i :| 0 <= i < |s.threads| && !(s.threads[i].Idle? || s.threads[i].Asleep?);
    var a: Action<T>;
    match s.threads[i] {
      case Awake(_, _) => a := Recheck(i);
      case Broadcasting => a := NotifyAll(i);
      case Notifying =>
        if SomeAsleep(s) {
          var w :| 0 <= w < |s.threads| && s.threads[w].Asleep?;
          a := NotifyOne(i, w);
        } else {
          a := NotifyOne(i, 0);
        }
    }
    assert Internal(a) && Enabled(s, a);
  }

  /** Once the threads already awake can do no more, which takes at most `Pending` of their steps, no
      thread sleeps beside an item or past a stop. */
  lemma SleepersHaveNothingToDo<T>(n: nat, before: seq<Action<T>>, s: State<T>, acts: seq<Action<T>>, s': State<T>)
    requires Run(Init(n), before, s) && Run(s, acts, s') && forall a | a in acts :: Internal(a)
    ensures |acts| <= Pending(s)
    ensures (forall a: Action<T> :: Internal(a) ==> !Enabled(s', a)) && SomeAsleep(s') ==>
              s'.q.items == [] && !s'.q.stopped
  {
    NotificationsRunOut(s, acts, s');
    InitInv<T>(n);
    RunKeepsInv(Init(n), before, s);
    RunKeepsInv(s, acts, s');
    CountPositive(s'.threads, IsNotifying);
    CountPositive(s'.threads, IsAwake);
    CountPositive(s'.threads, IsBroadcasting);
  }
}
