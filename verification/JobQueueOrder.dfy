/** Where every job of a run goes, and in which order
    (packages/core/src/worker-shared/redis-queue.ts:56-58, 122-189). */
module JobQueueOrder {
  import opened Text
  import opened MockRedis
  import opened JobQueue

  // ---- what enters and leaves each place ------------------------------------------------------------

  datatype Place = Waiting | Processing | Dead | Settled

  function At(q: Queue, place: Place): multiset<string> {
    match place
    case Waiting => multiset(q.lists.waiting)
    case Processing => multiset(q.lists.processing)
    case Dead => multiset(q.lists.dead)
    case Settled => q.settled
  }

  predicate Enters(e: Event, place: Place) {
    match place
    case Waiting => e.Enqueue? || e.Requeue? || e.ReplayPush? || e.Reinject?
    case Processing => e.Take?
    case Dead => e.Bury?
    case Settled => e.Settle?
  }

  predicate Leaves(e: Event, place: Place) {
    match place
    case Waiting => e.Take?
    case Processing => e.Settle? || e.Fail? || e.Reinject?
    case Dead => e.ReplayPop?
    case Settled => false
  }

  /** The job an event moves. */
  function Moved(q: Queue, e: Event): Option<string>
    requires Enabled(q, e)
  {
    match e
    case Enqueue(raw) => Some(raw)
    case Take => Some(q.lists.waiting[|q.lists.waiting| - 1])
    case Reinject => Some(q.lists.processing[|q.lists.processing| - 1])
    case ReplayPop => Some(q.lists.dead[0])
    case ReplayPush => q.replaying
    case Crash => None
    case ReplayCrash => None
    case _ => Some(q.worker.raw)
  }

  lemma LastApart(s: seq<string>, raw: string)
    requires s != []
    ensures multiset(s[..|s| - 1])[raw] + One(s[|s| - 1] == raw) == multiset(s)[raw]
  {
    assert s == s[..|s| - 1] + [s[|s| - 1]];
  }

  lemma FirstApart(s: seq<string>, raw: string)
    requires s != []
    ensures multiset(s[1..])[raw] + One(s[0] == raw) == multiset(s)[raw]
  {
    assert s == [s[0]] + s[1..];
  }

  /** What an event does to one place, for one job. */
  predicate Flows(q: Queue, e: Event, place: Place, raw: string)
    requires Enabled(q, e)
  {
    At(Step(q, e), place)[raw] + One(Leaves(e, place) && Moved(q, e) == Some(raw))
    == At(q, place)[raw] + One(Enters(e, place) && Moved(q, e) == Some(raw))
  }

  lemma PushFlows(q: Queue, e: Event, raw: string)
    requires (e.Enqueue? || e.Requeue? || e.ReplayPush?) && Enabled(q, e)
    ensures Flows(q, e, Waiting, raw)
  {
    Appended(q.lists.waiting, Moved(q, e).value, raw);
  }

  lemma TakeFlows(q: Queue, raw: string)
    requires Enabled(q, Take)
    ensures Flows(q, Take, Waiting, raw) && Flows(q, Take, Processing, raw)
  {
    var last := Moved(q, Take).value;
    LastApart(q.lists.waiting, raw);
    Appended(q.lists.processing, last, raw);
    assert Step(q, Take).lists.processing == [last] + q.lists.processing;
  }

  lemma ReinjectFlows(q: Queue, raw: string)
    requires Enabled(q, Reinject)
    ensures Flows(q, Reinject, Waiting, raw) && Flows(q, Reinject, Processing, raw)
  {
    var last := Moved(q, Reinject).value;
    LastApart(q.lists.processing, raw);
    Appended(q.lists.waiting, last, raw);
    assert Step(q, Reinject).lists.waiting == [last] + q.lists.waiting;
  }

  lemma WaitingFlows(q: Queue, e: Event, raw: string)
    requires Enabled(q, e)
    ensures Flows(q, e, Waiting, raw)
  {
    if e.Enqueue? || e.Requeue? || e.ReplayPush? {
      PushFlows(q, e, raw);
    } else if e.Take? {
      TakeFlows(q, raw);
    } else if e.Reinject? {
      ReinjectFlows(q, raw);
    }
  }

  lemma RemovalApart(s: seq<string>, x: string, raw: string)
    requires x in s
    ensures multiset(RemoveFirst(s, 1, x))[raw] + One(x == raw) == multiset(s)[raw]
  {
    RemoveOneMultiset(s, x);
  }

  lemma AcknowledgeFlows(q: Queue, e: Event, raw: string)
    requires (e.Settle? || e.Fail?) && Enabled(q, e) && Consistent(q)
    ensures Flows(q, e, Processing, raw)
  {
    RemovalApart(q.lists.processing, q.worker.raw, raw);
  }

  lemma ProcessingFlows(q: Queue, e: Event, raw: string)
    requires Enabled(q, e) && Consistent(q)
    ensures Flows(q, e, Processing, raw)
  {
    if e.Settle? || e.Fail? {
      AcknowledgeFlows(q, e, raw);
    } else if e.Take? {
      TakeFlows(q, raw);
    } else if e.Reinject? {
      ReinjectFlows(q, raw);
    }
  }

  lemma DeadFlows(q: Queue, e: Event, raw: string)
    requires Enabled(q, e)
    ensures Flows(q, e, Dead, raw)
  {
    match e
    case Bury => Appended(q.lists.dead, q.worker.raw, raw);
    case ReplayPop => FirstApart(q.lists.dead, raw);
    case _ =>
  }

  /** An event adds the job it moves to the place it enters, takes it from the place it leaves, and touches no
      other. */
  lemma StepFlows(q: Queue, e: Event, place: Place, raw: string)
    requires Enabled(q, e) && Consistent(q)
    ensures Flows(q, e, place, raw)
  {
    match place
    case Waiting => WaitingFlows(q, e, raw);
    case Processing => ProcessingFlows(q, e, raw);
    case Dead => DeadFlows(q, e, raw);
    case Settled =>
  }

  /** How often a run moves raw into, or out of, the place. */
  function Moves(es: seq<Event>, place: Place, into: bool, raw: string): nat
    requires After(es).Some?
  {
    if es == [] then 0
    else
      var front, e := es[..|es| - 1], es[|es| - 1];
      Moves(front, place, into, raw)
      + One((if into then Enters(e, place) else Leaves(e, place)) && Moved(After(front).value, e) == Some(raw))
  }

  /** Main result. After every run, crashes included, each place holds a job as often as it was moved in and not
      out again: the dead letters what was buried and not replayed, the settled jobs what was settled, and so on. */
  lemma {:induction false} PlacesBalance(es: seq<Event>, place: Place, raw: string)
    requires After(es).Some?
    ensures At(After(es).value, place)[raw] + Moves(es, place, false, raw) == Moves(es, place, true, raw)
  {
    if es != [] {
      var front, e := es[..|es| - 1], es[|es| - 1];
      PlacesBalance(front, place, raw);
      NothingDuplicated(front, raw);
      StepFlows(After(front).value, e, place, raw);
    }
  }

  // ---- order ------------------------------------------------------------------------------------------

  /** The jobs a run buries, or takes off the dead letters again, in the order it does so. */
  function DeadTraffic(es: seq<Event>, buried: bool): seq<string>
    requires After(es).Some?
  {
    if es == [] then []
    else
      var front, e := es[..|es| - 1], es[|es| - 1];
      var counts := if buried then e.Bury? else e.ReplayPop?;
      DeadTraffic(front, buried) + if counts then [Moved(After(front).value, e).value] else []
  }

  /** Main result. Dead letters are replayed first in, first out, in every run. */
  lemma {:induction false} DeadLettersKeepOrder(es: seq<Event>)
    requires After(es).Some?
    ensures DeadTraffic(es, true) == DeadTraffic(es, false) + After(es).value.lists.dead
  {
    if es != [] {
      var front, e := es[..|es| - 1], es[|es| - 1];
      DeadLettersKeepOrder(front);
      var dead := After(front).value.lists.dead;
      if e.ReplayPop? { assert dead == [dead[0]] + dead[1..]; }
    }
  }

  /** What becomes of the job taken next: the newest. Settled, it is gone and the other jobs stand as before; buried,
      it is the youngest dead letter; requeued after a failure, the queue is exactly as it was, so the
      same job is taken again. */
  lemma HandlingTheNewest(q: Queue, older: seq<string>, newest: string)
    requires q.worker.Idle? && q.lists.waiting == older + [newest]
    ensures Step(Step(q, Take), Settle)
         == q.(lists := q.lists.(waiting := older), settled := q.settled + multiset{newest})
    ensures Step(Step(Step(q, Take), Fail), Bury)
         == q.(lists := q.lists.(waiting := older, dead := q.lists.dead + [newest]))
    ensures Step(Step(Step(q, Take), Fail), Requeue) == q
  {
    var taken := Step(q, Take);
    assert taken.lists == Lists(older, [newest] + q.lists.processing, q.lists.dead);
    assert taken.worker == Handling(newest);
    assert RemoveFirst(q.lists.processing, 0, newest) == q.lists.processing;
    assert ([newest] + q.lists.processing)[1..] == q.lists.processing;
    assert Acknowledged(taken.lists, newest) == Lists(older, q.lists.processing, q.lists.dead);
  }

  /** A crash while the newest job is handled, and the recovery of it: it stands in front of the queue now, to be
      taken last. */
  lemma CrashPutsItLast(q: Queue, older: seq<string>, newest: string)
    requires q.worker.Idle? && q.lists.waiting == older + [newest] && q.lists.processing == []
    ensures Step(Step(Step(q, Take), Crash), Reinject) == q.(lists := q.lists.(waiting := [newest] + older))
  {
    assert [newest] + q.lists.processing == [newest];
    assert Step(q, Take).lists == Lists(older, [newest], q.lists.dead);
    assert [newest][..0] == q.lists.processing;
  }

  /** One job enqueued, then n later ones, each handled at once. */
  function Overtaking(first: string, later: string, n: nat): seq<Event> {
    if n == 0 then [Event.Enqueue(first)]
    else Overtaking(first, later, n - 1) + [Event.Enqueue(later), Take, Settle]
  }

  lemma AfterOne(es: seq<Event>, e: Event)
    requires After(es).Some? && Enabled(After(es).value, e)
    ensures After(es + [e]) == Some(Step(After(es).value, e))
  {
    assert (es + [e])[..|es|] == es;
  }

  lemma {:induction false} AfterThree(es: seq<Event>, a: Event, b: Event, c: Event)
    requires After(es).Some? && Enabled(After(es).value, a) && Enabled(Step(After(es).value, a), b)
    requires Enabled(Step(Step(After(es).value, a), b), c)
    ensures After(es + [a, b, c]) == Some(Step(Step(Step(After(es).value, a), b), c))
  {
    AfterOne(es, a);
    AfterOne(es + [a], b);
    AfterOne(es + [a] + [b], c);
    assert es + [a] + [b] + [c] == es + [a, b, c];
  }

  /** The queue is last in, first out: however many later jobs have been handled, the first may still wait. */
  lemma {:induction false} FirstMayWaitForever(first: string, later: string, n: nat)
    ensures var q := After(Overtaking(first, later, n));
            q.Some? && q.value.lists == Lists([first], [], []) && q.value.worker.Idle? && q.value.settled[later] >= n
  {
    if n == 0 {
      assert [Event.Enqueue(first)][..0] == [] && [] + [first] == [first];
      assert After([Event.Enqueue(first)]) == Some(Step(EMPTY, Event.Enqueue(first)));
    } else {
      FirstMayWaitForever(first, later, n - 1);
      var es := Overtaking(first, later, n - 1);
      var q := Step(After(es).value, Event.Enqueue(later));
      assert q.lists.waiting == [first] + [later];
      HandlingTheNewest(q, [first], later);
      AfterThree(es, Event.Enqueue(later), Take, Settle);
    }
  }
}
