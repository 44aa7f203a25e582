/** Runs of the reliable job queue (packages/core/src/worker-shared/redis-queue.ts) over the list
    commands of the mock: one consumer, crashes at any await, recovery at start-up. */
module JobQueue {
  import opened Text
  import opened MockRedis

  /** The three Redis lists of one queue. */
  datatype Lists = Lists(waiting: seq<string>, processing: seq<string>, dead: seq<string>)

  // ---- commands on the lists ------------------------------------------------------------------------

  function Pushed(l: Lists, raw: string): Lists { l.(waiting := l.waiting + [raw]) }

  function Taken(l: Lists): Lists
    requires l.waiting != []
  {
    var last := |l.waiting| - 1;
    l.(waiting := l.waiting[..last], processing := [l.waiting[last]] + l.processing)
  }

  /** LREM of one occurrence from the processing list. */
  function Acknowledged(l: Lists, raw: string): Lists { l.(processing := RemoveFirst(l.processing, 1, raw)) }

  function Buried(l: Lists, raw: string): Lists { l.(dead := l.dead + [raw]) }

  /** One round of recoverOrphans. */
  function Reinjected(l: Lists): Lists
    requires l.processing != []
  {
    var last := |l.processing| - 1;
    l.(processing := l.processing[..last], waiting := [l.processing[last]] + l.waiting)
  }

  function Exhumed(l: Lists): Lists
    requires l.dead != []
  {
    l.(dead := l.dead[1..])
  }

  /** The processing list, in its order, before the queue: what recovery makes of both. */
  function Together(l: Lists): seq<string> { l.processing + l.waiting }

  lemma ReinjectKeepsTogether(l: Lists)
    requires l.processing != []
    ensures Together(Reinjected(l)) == Together(l) && Reinjected(l).dead == l.dead
  {
    var front, last := l.processing[..|l.processing| - 1], l.processing[|l.processing| - 1];
    assert l.processing == front + [last];
    assert front + ([last] + l.waiting) == l.processing + l.waiting;
  }

  /** The k oldest dead jobs, in their order, behind the queue. */
  function Replayed(l: Lists, k: nat): Lists
    requires k <= |l.dead|
  {
    l.(waiting := l.waiting + l.dead[..k], dead := l.dead[k..])
  }

  lemma ReplayOneMore(l: Lists, k: nat)
    requires k < |l.dead|
    ensures Replayed(l, k).dead != [] && Replayed(l, k).dead[0] == l.dead[k]
    ensures Pushed(Exhumed(Replayed(l, k)), l.dead[k]) == Replayed(l, k + 1)
  {
    assert l.dead[..k + 1] == l.dead[..k] + [l.dead[k]];
  }

  lemma {:induction false} RemovalAddsNothing(s: seq<string>, n: nat, v: string, x: string)
    requires x !in s
    ensures x !in RemoveFirst(s, n, v)
  {
    if s != [] && n > 0 {
      RemovalAddsNothing(s[1..], if s[0] == v then n - 1 else n, v, x);
    }
  }

  // ---- the object --------------------------------------------------------------------------------------

  class RedisQueue {
    const redis: Client
    const name: string

    constructor (redis: Client, name: string)
      requires redis.Valid()
      ensures this.redis == redis && this.name == name
    {
      this.redis, this.name := redis, name;
    }

    function ProcessingKey(): string { name + ":processing" }

    function DeadKey(): string { name + ":dead" }

    /** No stored job is the empty text: jobs are JSON. */
    ghost predicate Valid()
      reads redis, redis.lists.Values
    {
      && redis.Valid()
      && "" !in redis.Items(name) && "" !in redis.Items(ProcessingKey()) && "" !in redis.Items(DeadKey())
    }

    ghost function View(): Lists
      reads redis, redis.lists.Values
    {
      Lists(redis.Items(name), redis.Items(ProcessingKey()), redis.Items(DeadKey()))
    }

    lemma KeysDiffer()
      ensures |name| < |DeadKey()| < |ProcessingKey()|
    {
    }

    method Enqueue(raw: string)
      requires Valid() && raw != ""
      modifies redis`lists, redis.lists.Values
      ensures Valid() && fresh(redis.lists.Values - old(redis.lists.Values))
      ensures View() == Pushed(old(View()), raw)
    {
      KeysDiffer();
      var _ := redis.RPush(name, [raw]);
    }

    /** BRPOPLPUSH, without the wait. */
    method Take() returns (raw: Option<string>)
      requires Valid()
      modifies redis`lists, redis.lists.Values
      ensures Valid() && fresh(redis.lists.Values - old(redis.lists.Values))
      ensures old(View()).waiting == [] ==> raw == None && View() == old(View())
      ensures old(View()).waiting != [] ==>
        View() == Taken(old(View())) && View().processing != [] && raw == Some(View().processing[0])
    {
      KeysDiffer();
      ghost var all := View().waiting;
      raw := redis.RPopLPush(name, ProcessingKey());
      assert all != [] ==> all[|all| - 1] in all;
    }

    method Acknowledge(raw: string)
      requires Valid()
      modifies redis`lists, redis.lists.Values
      ensures Valid() && fresh(redis.lists.Values - old(redis.lists.Values))
      ensures View() == Acknowledged(old(View()), raw)
    {
      KeysDiffer();
      RemovalAddsNothing(View().processing, 1, raw, "");
      var _ := redis.LRem(ProcessingKey(), 1, raw);
    }

    method Bury(raw: string)
      requires Valid() && raw != ""
      modifies redis`lists, redis.lists.Values
      ensures Valid() && fresh(redis.lists.Values - old(redis.lists.Values))
      ensures View() == Buried(old(View()), raw)
    {
      KeysDiffer();
      var _ := redis.RPush(DeadKey(), [raw]);
    }

    /** One RPOPLPUSH of the recovery loop; the answer says whether the loop goes on. */
    method Reinject() returns (again: bool)
      requires Valid()
      modifies redis`lists, redis.lists.Values
      ensures Valid() && fresh(redis.lists.Values - old(redis.lists.Values))
      ensures again == (old(View()).processing != [])
      ensures View() == if again then Reinjected(old(View())) else old(View())
    {
      KeysDiffer();
      ghost var all := View().processing;
      var item := redis.RPopLPush(ProcessingKey(), name);
      assert all != [] ==> all[|all| - 1] in all;
      again := item.Some? && item.value != "";
    }

    /** Left alone, the recovery loop puts the whole processing list, in its order, before the queue. */
    method RecoverOrphans()
      requires Valid()
      modifies redis`lists, redis.lists.Values
      ensures Valid() && fresh(redis.lists.Values - old(redis.lists.Values))
      ensures View() == Lists(Together(old(View())), [], old(View()).dead)
    {
      ghost var before := View();
      var again := true;
      while again
        invariant Valid() && fresh(redis.lists.Values - old(redis.lists.Values))
        invariant Together(View()) == Together(before) && View().dead == before.dead
        invariant !again ==> View().processing == []
        decreases |View().processing| + if again then 1 else 0
      {
        if View().processing != [] { ReinjectKeepsTogether(View()); }
        again := Reinject();
      }
    }

    /** One LPOP of replayDead. */
    method Exhume() returns (raw: Option<string>)
      requires Valid()
      modifies redis`lists, redis.lists.Values
      ensures Valid() && fresh(redis.lists.Values - old(redis.lists.Values))
      ensures old(View()).dead == [] ==> raw == None && View() == old(View())
      ensures old(View()).dead != [] ==>
        View() == Exhumed(old(View())) && raw == Some(old(View()).dead[0]) && raw.value != ""
    {
      KeysDiffer();
      ghost var all := View().dead;
      raw := redis.LPop(DeadKey());
      assert all != [] ==> all[0] in all;
    }

    /** One round of replayDead. */
    method ReplayOne() returns (moved: bool)
      requires Valid()
      modifies redis`lists, redis.lists.Values
      ensures Valid() && fresh(redis.lists.Values - old(redis.lists.Values))
      ensures moved == (old(View()).dead != [])
      ensures View() == if moved then Pushed(Exhumed(old(View())), old(View()).dead[0]) else old(View())
    {
      var raw := Exhume();
      if raw.None? || raw.value == "" { return false; }
      Enqueue(raw.value);
      return true;
    }

    /** Left alone, replayDead moves the oldest dead jobs, in their order, behind the queue. */
    method ReplayDead(limit: nat) returns (replayed: nat)
      requires Valid()
      modifies redis`lists, redis.lists.Values
      ensures Valid() && replayed == Min(limit, |old(View()).dead|)
      ensures View() == Replayed(old(View()), replayed)
    {
      ghost var before := View();
      replayed := 0;
      var moved := true;
      while replayed < limit && moved
        invariant Valid() && fresh(redis.lists.Values - old(redis.lists.Values))
        invariant replayed <= limit && replayed <= |before.dead| && View() == Replayed(before, replayed)
        invariant !moved ==> replayed == |before.dead|
        decreases limit - replayed, moved
      {
        if replayed < |before.dead| { ReplayOneMore(before, replayed); }
        moved := ReplayOne();
        if moved { replayed := replayed + 1; }
      }
    }
  }

  // ---- every run -------------------------------------------------------------------------------------------

  /** Where the single consumer stands between two awaits. */
  datatype Worker =
    | Idle
    | Handling(raw: string)   // after BRPOPLPUSH: the job is on the processing list
    | Removed(raw: string)    // after a failed handler's LREM, before its RPUSH

  datatype Queue = Queue(
    lists: Lists, worker: Worker,
    replaying: Option<string>,   // popped off the dead letters, its RPUSH to the queue still to come
    settled: multiset<string>)

  datatype Event =
    | Enqueue(raw: string)
    | Take
    | Settle                  // parsed and handled, discarded or unparsable: LREM only
    | Fail                    // handler threw: LREM, the push still to come
    | Requeue | Bury          // the RPUSH to the queue, or to the dead letters
    | ReplayPop | ReplayPush  // replayDead: LPOP of the dead letters, then RPUSH to the queue
    | Reinject                // one RPOPLPUSH of recoverOrphans
    | Crash | ReplayCrash     // the consumer's process dies, or the one replaying

  const EMPTY: Queue := Queue(Lists([], [], []), Idle, None, multiset{})

  predicate Enabled(q: Queue, e: Event) {
    match e
    case Take => q.worker.Idle? && q.lists.waiting != []
    case Settle => q.worker.Handling?
    case Fail => q.worker.Handling?
    case Requeue => q.worker.Removed?
    case Bury => q.worker.Removed?
    case Reinject => q.worker.Idle? && q.lists.processing != []
    case ReplayPop => q.replaying.None? && q.lists.dead != []
    case ReplayPush => q.replaying.Some?
    case _ => true
  }

  function Step(q: Queue, e: Event): Queue
    requires Enabled(q, e)
  {
    match e
    case Enqueue(raw) => q.(lists := Pushed(q.lists, raw))
    case Take => q.(lists := Taken(q.lists), worker := Handling(q.lists.waiting[|q.lists.waiting| - 1]))
    case Settle =>
      q.(lists := Acknowledged(q.lists, q.worker.raw), settled := q.settled + multiset{q.worker.raw}, worker := Idle)
    case Fail => q.(lists := Acknowledged(q.lists, q.worker.raw), worker := Removed(q.worker.raw))
    case Requeue => q.(lists := Pushed(q.lists, q.worker.raw), worker := Idle)
    case Bury => q.(lists := Buried(q.lists, q.worker.raw), worker := Idle)
    case ReplayPop => q.(lists := Exhumed(q.lists), replaying := Some(q.lists.dead[0]))
    case ReplayPush => q.(lists := Pushed(q.lists, q.replaying.value), replaying := None)
    case Reinject => q.(lists := Reinjected(q.lists))
    case Crash => q.(worker := Idle)
    case ReplayCrash => q.(replaying := None)
  }

  /** The queue after a run from the empty queue; None if some event could not happen. */
  function After(es: seq<Event>): Option<Queue> {
    if es == [] then Some(EMPTY)
    else
      var q := After(es[..|es| - 1]);
      if q.Some? && Enabled(q.value, es[|es| - 1]) then Some(Step(q.value, es[|es| - 1])) else None
  }

  function One(same: bool): nat { if same then 1 else 0 }

  /** How often a run enqueues raw. */
  function Enqueued(es: seq<Event>, raw: string): nat {
    if es == [] then 0 else Enqueued(es[..|es| - 1], raw) + One(es[|es| - 1] == Event.Enqueue(raw))
  }

  /** Copies of raw that a process holds alone: off one list, not yet on the next. */
  function InHand(q: Queue, raw: string): nat {
    One(q.worker == Removed(raw)) + One(q.replaying == Some(raw))
  }

  /** Copies of raw that an event takes from the process holding them: only a crash does. */
  function Dropped(q: Queue, e: Event, raw: string): nat {
    if e.Crash? then One(q.worker == Removed(raw))
    else if e.ReplayCrash? then One(q.replaying == Some(raw))
    else 0
  }

  function Listed(l: Lists, raw: string): nat {
    multiset(l.waiting)[raw] + multiset(l.processing)[raw] + multiset(l.dead)[raw]
  }

  /** How many copies of raw there are, in every place a job can be. */
  function Copies(q: Queue, raw: string): nat { Listed(q.lists, raw) + InHand(q, raw) + q.settled[raw] }

  predicate Consistent(q: Queue) { q.worker.Handling? ==> q.worker.raw in q.lists.processing }

  lemma Appended(s: seq<string>, x: string, raw: string)
    ensures multiset(s + [x])[raw] == multiset(s)[raw] + One(x == raw) == multiset([x] + s)[raw]
  {
  }

  lemma PushAdds(l: Lists, x: string, raw: string)
    ensures Listed(Pushed(l, x), raw) == Listed(l, raw) + One(x == raw) == Listed(Buried(l, x), raw)
  {
    Appended(l.waiting, x, raw);
    Appended(l.dead, x, raw);
  }

  lemma AcknowledgeTakes(l: Lists, x: string, raw: string)
    requires x in l.processing
    ensures Listed(Acknowledged(l, x), raw) + One(x == raw) == Listed(l, raw)
  {
    RemoveOneMultiset(l.processing, x);
  }

  lemma ExhumeTakes(l: Lists, raw: string)
    requires l.dead != []
    ensures Listed(Exhumed(l), raw) + One(l.dead[0] == raw) == Listed(l, raw)
  {
    assert l.dead == [l.dead[0]] + l.dead[1..];
    Appended(l.dead[1..], l.dead[0], raw);
  }

  /** The tail of one list becomes the head of the other. */
  lemma MoveConserves(from: seq<string>, to: seq<string>, raw: string)
    requires from != []
    ensures var k := |from| - 1;
            multiset(from[..k])[raw] + multiset([from[k]] + to)[raw] == multiset(from)[raw] + multiset(to)[raw]
  {
    var front, last := from[..|from| - 1], from[|from| - 1];
    assert from == front + [last];
    Appended(front, last, raw);
    Appended(to, last, raw);
  }

  lemma TakeConserves(l: Lists, raw: string)
    requires l.waiting != []
    ensures Listed(Taken(l), raw) == Listed(l, raw)
  {
    MoveConserves(l.waiting, l.processing, raw);
  }

  lemma ReinjectConserves(l: Lists, raw: string)
    requires l.processing != []
    ensures Listed(Reinjected(l), raw) == Listed(l, raw)
  {
    MoveConserves(l.processing, l.waiting, raw);
  }

  lemma WorkerConserves(q: Queue, e: Event, raw: string)
    requires (e.Settle? || e.Fail? || e.Requeue? || e.Bury?) && Enabled(q, e) && Consistent(q)
    ensures Copies(Step(q, e), raw) == Copies(q, raw)
  {
    if e.Settle? || e.Fail? {
      AcknowledgeTakes(q.lists, q.worker.raw, raw);
    } else {
      PushAdds(q.lists, q.worker.raw, raw);
    }
  }

  lemma ReplayConserves(q: Queue, e: Event, raw: string)
    requires (e.ReplayPop? || e.ReplayPush?) && Enabled(q, e)
    ensures Copies(Step(q, e), raw) == Copies(q, raw)
  {
    if e.ReplayPop? {
      ExhumeTakes(q.lists, raw);
    } else {
      PushAdds(q.lists, q.replaying.value, raw);
    }
  }

  lemma MoveEventConserves(q: Queue, e: Event, raw: string)
    requires (e.Take? || e.Reinject?) && Enabled(q, e)
    ensures Copies(Step(q, e), raw) == Copies(q, raw)
  {
    if e.Take? {
      TakeConserves(q.lists, raw);
    } else {
      ReinjectConserves(q.lists, raw);
    }
  }

  /** Every event but a crash keeps the copies of every job, up to what it enqueues; a crash takes what is
      in hand. */
  lemma StepConserves(q: Queue, e: Event, raw: string)
    requires Enabled(q, e) && Consistent(q)
    ensures Copies(Step(q, e), raw) + Dropped(q, e, raw)
         == Copies(q, raw) + One(e == Event.Enqueue(raw))
  {
    if e.Enqueue? {
      PushAdds(q.lists, e.raw, raw);
    } else if e.Take? || e.Reinject? {
      MoveEventConserves(q, e, raw);
    } else if e.ReplayPop? || e.ReplayPush? {
      ReplayConserves(q, e, raw);
    } else if !e.Crash? && !e.ReplayCrash? {
      WorkerConserves(q, e, raw);
    }
  }

  lemma StepConsistent(q: Queue, e: Event)
    requires Enabled(q, e) && Consistent(q)
    ensures Consistent(Step(q, e))
  {
  }

  /** Main result. In every run, crashes included, no job is ever duplicated: the copies waiting, being
      processed, dead, in hand and settled never exceed the times it was enqueued. */
  lemma {:induction false} NothingDuplicated(es: seq<Event>, raw: string)
    requires After(es).Some?
    ensures Consistent(After(es).value) && Copies(After(es).value, raw) <= Enqueued(es, raw)
  {
    if es != [] {
      var front, e := es[..|es| - 1], es[|es| - 1];
      NothingDuplicated(front, raw);
      StepConserves(After(front).value, e, raw);
      StepConsistent(After(front).value, e);
    }
  }

  // ---- exactly when a job is lost ---------------------------------------------------------------------------

  /** Between a failed job's LREM and its RPUSH. */
  predicate FailGap(es: seq<Event>, i: nat, j: nat) {
    && i < j <= |es| && es[i].Fail?
    && forall k :: i < k < j ==> !es[k].Requeue? && !es[k].Bury? && !es[k].Crash?
  }

  /** Between a replay's LPOP and its RPUSH. */
  predicate ReplayGap(es: seq<Event>, i: nat, j: nat) {
    && i < j <= |es| && es[i].ReplayPop?
    && forall k :: i < k < j ==> !es[k].ReplayPush? && !es[k].ReplayCrash?
  }

  /** The crash e, coming after es, falls into a gap of its own process. */
  predicate HitsGap(es: seq<Event>, e: Event) {
    || (e.Crash? && exists i :: 0 <= i < |es| && FailGap(es, i, |es|))
    || (e.ReplayCrash? && exists i :: 0 <= i < |es| && ReplayGap(es, i, |es|))
  }

  /** Some crash falls into a gap. */
  predicate CrashInGap(es: seq<Event>) {
    exists j :: 0 <= j < |es| && HitsGap(es[..j], es[j])
  }

  lemma FailGapStep(front: seq<Event>, e: Event, i: nat)
    ensures FailGap(front + [e], i, |front| + 1) <==>
      (i == |front| && e.Fail?) || (FailGap(front, i, |front|) && !e.Requeue? && !e.Bury? && !e.Crash?)
  {
    var es, n := front + [e], |front|;
    assert es[n] == e && forall k :: 0 <= k < n ==> es[k] == front[k];
  }

  lemma ReplayGapStep(front: seq<Event>, e: Event, i: nat)
    ensures ReplayGap(front + [e], i, |front| + 1) <==>
      (i == |front| && e.ReplayPop?) || (ReplayGap(front, i, |front|) && !e.ReplayPush? && !e.ReplayCrash?)
  {
    var es, n := front + [e], |front|;
    assert es[n] == e && forall k :: 0 <= k < n ==> es[k] == front[k];
  }

  lemma {:induction false} RemovedIffFailGap(es: seq<Event>)
    requires After(es).Some?
    ensures After(es).value.worker.Removed? <==> exists i :: 0 <= i < |es| && FailGap(es, i, |es|)
  {
    if es != [] {
      var front, e := es[..|es| - 1], es[|es| - 1];
      RemovedIffFailGap(front);
      assert es == front + [e];
      forall i | 0 <= i < |es|
        ensures FailGap(es, i, |es|) <==>
          (i == |front| && e.Fail?) || (FailGap(front, i, |front|) && !e.Requeue? && !e.Bury? && !e.Crash?)
      {
        FailGapStep(front, e, i);
      }
      assert e.Fail? ==> FailGap(es, |front|, |es|);
    }
  }

  lemma {:induction false} ReplayingIffReplayGap(es: seq<Event>)
    requires After(es).Some?
    ensures After(es).value.replaying.Some? <==> exists i :: 0 <= i < |es| && ReplayGap(es, i, |es|)
  {
    if es != [] {
      var front, e := es[..|es| - 1], es[|es| - 1];
      ReplayingIffReplayGap(front);
      assert es == front + [e];
      forall i | 0 <= i < |es|
        ensures ReplayGap(es, i, |es|) <==>
          (i == |front| && e.ReplayPop?) || (ReplayGap(front, i, |front|) && !e.ReplayPush? && !e.ReplayCrash?)
      {
        ReplayGapStep(front, e, i);
      }
      assert e.ReplayPop? ==> ReplayGap(es, |front|, |es|);
    }
  }

  ghost predicate Complete(es: seq<Event>)
    requires After(es).Some?
  {
    forall raw: string :: Copies(After(es).value, raw) == Enqueued(es, raw)
  }

  lemma StepComplete(front: seq<Event>, e: Event)
    requires After(front).Some? && Enabled(After(front).value, e)
    ensures After(front + [e]).Some?
    ensures Complete(front + [e]) <==> Complete(front) && !HitsGap(front, e)
  {
    var es, q := front + [e], After(front).value;
    assert es[..|es| - 1] == front;
    RemovedIffFailGap(front);
    ReplayingIffReplayGap(front);
    forall raw: string
      ensures Copies(After(es).value, raw) + Dropped(q, e, raw)
           == Copies(q, raw) + One(e == Event.Enqueue(raw))
      ensures Copies(q, raw) <= Enqueued(front, raw)
      ensures Enqueued(es, raw) == Enqueued(front, raw) + One(e == Event.Enqueue(raw))
    {
      NothingDuplicated(front, raw);
      StepConserves(q, e, raw);
    }
    if HitsGap(front, e) {
      var raw := if e.Crash? then q.worker.raw else q.replaying.value;
      assert Dropped(q, e, raw) == 1;
      assert Copies(After(es).value, raw) < Enqueued(es, raw);
    } else {
      assert forall raw :: Dropped(q, e, raw) == 0;
      if Complete(es) {
        forall raw: string ensures Copies(q, raw) == Enqueued(front, raw) {
          assert Copies(After(es).value, raw) == Enqueued(es, raw);
        }
      }
      if Complete(front) {
        forall raw: string ensures Copies(After(es).value, raw) == Enqueued(es, raw) {
          assert Copies(q, raw) == Enqueued(front, raw);
        }
      }
    }
  }

  /** Main result. After any run, every job enqueued is still somewhere, as often as it was enqueued, if and
      only if no crash fell between a failed job's LREM and its RPUSH, or between a replay's LPOP and RPUSH. */
  lemma {:induction false} CompleteIffNoCrashInGap(es: seq<Event>)
    requires After(es).Some?
    ensures (forall raw: string :: Copies(After(es).value, raw) == Enqueued(es, raw)) <==> !CrashInGap(es)
  {
    if es != [] {
      var n, front, e := |es| - 1, es[..|es| - 1], es[|es| - 1];
      assert es == front + [e];
      CompleteIffNoCrashInGap(front);
      StepComplete(front, e);
      assert forall j :: 0 <= j < n ==> front[..j] == es[..j] && front[j] == es[j];
      assert es[..n] == front && es[n] == e;
    }
  }
}
