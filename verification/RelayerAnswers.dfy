/** What the callers of the withdraw/wrap protocol are answered
    (packages/backend/src/polymarket/relayer-client.ts:86-114, 285-345): a confirmed hash reaches every retry
    while it lives, a running withdrawal is reported as such, and a cleared one can be started again. */
module RelayerAnswers {
  import opened Text
  import opened MockRedis
  import opened Relayer

  lemma {:induction false} ClockGrows(s: State, es: seq<Event>, end: State)
    requires TimelyRun(s, es, end)
    ensures s.now <= end.now
    decreases |es|
  {
    if es != [] { ClockGrows(Step(s, es[0]), es[1..], end); }
  }

  lemma {:induction false} TimelyIsRun(s: State, es: seq<Event>, end: State)
    requires TimelyRun(s, es, end)
    ensures Run(s, es, end)
    decreases |es|
  {
    if es != [] { TimelyIsRun(Step(s, es[0]), es[1..], end); }
  }

  // ---- a confirmed call answers its own hash ------------------------------------------------------

  /** A call with a hash, which is not empty, is on its way to returning it, or has returned it; and a call on that
      way has its hash. */
  predicate ReturnsOwn(call: Call) {
    if call.txHash.Some?
    then
      && call.txHash.value != ""
      && (call.phase.Confirmed? || call.phase.Remarking? || call.phase == Returned(call.txHash.value))
    else !call.phase.Confirmed? && !call.phase.Remarking?
  }

  lemma ActedReturnsOwn(store: Store, now: int, call: Call, a: Action)
    requires Ready(call, a) && ReturnsOwn(call)
    ensures ReturnsOwn(Acted(store, now, call, a).1)
  {
  }

  ghost predicate AllReturnOwn(s: State) { forall c :: c in s.calls ==> ReturnsOwn(s.calls[c]) }

  lemma {:induction false} RunReturnsOwn(s: State, es: seq<Event>, end: State)
    requires AllReturnOwn(s) && Run(s, es, end)
    ensures AllReturnOwn(end)
    decreases |es|
  {
    if es != [] {
      if es[0].Act? { ActedReturnsOwn(s.store, s.now, s.calls[es[0].c], es[0].action); }
      RunReturnsOwn(Step(s, es[0]), es[1..], end);
    }
  }

  /** Main result. In every run, timely or not, a call whose transaction was confirmed never throws: it is still
      marking, and two marks at most, whatever becomes of those writes, end it with its own hash. */
  lemma ConfirmedCallReturnsItsHash(now: int, es: seq<Event>, end: State, c: int, hash: string,
                                    first: Write, second: Write)
    requires Run(Initial(now), es, end) && c in end.calls && end.calls[c].txHash == Some(hash)
    ensures !Holds(end.calls[c]) ==> end.calls[c].phase == Returned(hash)
    ensures Holds(end.calls[c]) ==>
      && Enabled(end, Act(c, Mark(first)))
      && var next := Step(end, Act(c, Mark(first)));
         next.calls[c].phase == Returned(hash) ||
         (Enabled(next, Act(c, Mark(second))) && Step(next, Act(c, Mark(second))).calls[c].phase == Returned(hash))
    ensures end.calls[c].phase.Confirmed? ==>
      (Step(end, Act(c, Mark(first))).calls[c].phase == Returned(hash) <==> first == Acknowledged)
  {
    RunReturnsOwn(Initial(now), es, end);
  }

  // ---- a retry is answered with the hash -------------------------------------------------------------

  /** The call's hash is what its key holds, until the call's expiry. */
  predicate Stored(s: State, c: int, hash: string) {
    && c in s.calls && s.calls[c].txHash == Some(hash) && s.now <= s.calls[c].until
    && var key := KeyOf(s.calls[c]); key in s.store && s.store[key] == StoreEntry(hash, Some(s.calls[c].until))
  }

  /** A write that reached the store puts the hash there for 300 seconds. */
  lemma MarkStores(s: State, c: int, write: Write, t: int)
    requires Enabled(s, Act(c, Mark(write))) && write != Dropped
    ensures var next, hash := Step(s, Act(c, Mark(write))), s.calls[c].txHash.value;
            && Stored(next, c, hash)
            && Read(next.store, KeyOf(s.calls[c]), t) == if t <= s.now + 300_000 then Some(hash) else None
  {
  }

  /** A submitted transaction that is confirmed and marked. */
  lemma SubmissionSucceeds(s: State, c: int, hash: string)
    requires c in s.calls && s.calls[c].phase.Working? && hash != ""
    ensures Enabled(s, Act(c, Submit)) && Enabled(Step(s, Act(c, Submit)), Act(c, Confirm(hash)))
    ensures var confirmed := Step(Step(s, Act(c, Submit)), Act(c, Confirm(hash)));
      && Enabled(confirmed, Act(c, Mark(Acknowledged)))
      && var end := Step(confirmed, Act(c, Mark(Acknowledged)));
         end.calls[c].phase == Returned(hash) && Stored(end, c, hash) && end.now == s.now
  {
  }

  /** Main result. From every state with nothing live under its key, a new call that is let through reserves, submits,
      is confirmed, and returns its hash, which is then what the key holds. */
  lemma FreshCallSucceeds(s: State, c: int, r: Request, hash: string) returns (end: State)
    requires c !in s.calls && Read(s.store, IdempotencyKey(r), s.now) == None && hash != ""
    ensures Run(s, [Begin(c, r), Act(c, Reserve(Acknowledged)), Act(c, Submit), Act(c, Confirm(hash)),
                    Act(c, Mark(Acknowledged))], end)
    ensures Stored(end, c, hash) && end.calls[c].request == r && end.calls[c].phase == Returned(hash)
  {
    var s1 := Step(s, Begin(c, r));
    var s2 := Step(s1, Act(c, Reserve(Acknowledged)));
    assert s2.calls[c].phase.Working?;
    SubmissionSucceeds(s2, c, hash);
    var s3 := Step(s2, Act(c, Submit));
    var s4 := Step(s3, Act(c, Confirm(hash)));
    end := Step(s4, Act(c, Mark(Acknowledged)));
    var es := RunOne(s4, Act(c, Mark(Acknowledged)), [], end);
    es := RunOne(s3, Act(c, Confirm(hash)), es, end);
    es := RunOne(s2, Act(c, Submit), es, end);
    es := RunOne(s1, Act(c, Reserve(Acknowledged)), es, end);
    es := RunOne(s, Begin(c, r), es, end);
    assert es == [Begin(c, r), Act(c, Reserve(Acknowledged)), Act(c, Submit), Act(c, Confirm(hash)),
                  Act(c, Mark(Acknowledged))];
  }

  lemma OtherCallKeepsStored(s: State, d: int, a: Action, c: int, hash: string)
    requires Inv(s) && Enabled(s, Act(d, a)) && d != c && Stored(s, c, hash)
    ensures SameEntry(s.store, Acted(s.store, s.now, s.calls[d], a).0, KeyOf(s.calls[c]))
  {
    if KeyOf(s.calls[d]) == KeyOf(s.calls[c]) {
      assert Shields(s.calls[c], s.now) && !Shields(s.calls[d], s.now);
      OtherActs(s.store, s.now, s.calls[d], a);
    } else {
      OtherKeysStay(s.store, s.now, s.calls[d], a, KeyOf(s.calls[c]));
    }
  }

  lemma OwnCallKeepsStored(s: State, a: Action, c: int, hash: string)
    requires Inv(s) && Enabled(s, Act(c, a)) && Stored(s, c, hash)
    ensures Stored(Step(s, Act(c, a)), c, hash) && Step(s, Act(c, a)).calls[c].until >= s.calls[c].until
  {
    assert WellFormed(s.calls[c], s.now);
  }

  lemma StepKeepsStored(s: State, e: Event, c: int, hash: string)
    requires Inv(s) && Enabled(s, e) && Stored(s, c, hash) && Step(s, e).now <= s.calls[c].until
    ensures Stored(Step(s, e), c, hash)
    ensures Step(s, e).calls[c].until >= s.calls[c].until
    ensures KeyOf(Step(s, e).calls[c]) == KeyOf(s.calls[c])
  {
    if e.Act? && e.c == c {
      OwnCallKeepsStored(s, e.action, c, hash);
    } else if e.Act? {
      OtherCallKeepsStored(s, e.c, e.action, c, hash);
    }
  }

  /** While its expiry has not passed, nothing anybody does takes a stored hash away. */
  lemma {:induction false} HashStays(s: State, es: seq<Event>, end: State, c: int, hash: string)
    requires Inv(s) && TimelyRun(s, es, end) && Stored(s, c, hash) && end.now <= s.calls[c].until
    ensures Stored(end, c, hash) && KeyOf(end.calls[c]) == KeyOf(s.calls[c])
    decreases |es|
  {
    if es != [] {
      var next := Step(s, es[0]);
      ClockGrows(next, es[1..], end);
      StepKeepsStored(s, es[0], c, hash);
      StepKeepsInv(s, es[0]);
      HashStays(next, es[1..], end, c, hash);
    }
  }

  /** What the two steps of a new call do while the hash is stored. */
  lemma StoredIsAnswered(s: State, c: int, d: int, hash: string)
    requires Stored(s, c, hash) && hash != "" && hash != RESERVED
    requires d in s.calls && KeyOf(s.calls[d]) == KeyOf(s.calls[c])
    ensures s.calls[d].phase.Started? ==>
      var next := Step(s, Act(d, Reserve(Acknowledged)));
      next.calls[d].phase.Refused? && Step(next, Act(d, GetExisting(false))).calls[d].phase == Returned(hash)
    ensures s.calls[d].phase.Refused? ==> Step(s, Act(d, GetExisting(false))).calls[d].phase == Returned(hash)
  {
    assert Read(s.store, KeyOf(s.calls[d]), s.now) == Some(hash);
  }

  /** Main result. Once a confirmed hash is stored, then in every timely continuation until its expiry, a call for the
      same withdrawal that reserves is refused, and one that was refused and reads is given that hash. */
  lemma RetryIsGivenTheHash(now: int, es: seq<Event>, mid: State, c: int, hash: string,
                            more: seq<Event>, end: State, d: int)
    requires TimelyRun(Initial(now), es, mid) && TimelyRun(mid, more, end)
    requires Stored(mid, c, hash) && hash != RESERVED && end.now <= mid.calls[c].until
    requires d in end.calls && KeyOf(end.calls[d]) == KeyOf(mid.calls[c])
    ensures end.calls[d].phase.Started? ==>
      var next := Step(end, Act(d, Reserve(Acknowledged)));
      next.calls[d].phase.Refused? && Step(next, Act(d, GetExisting(false))).calls[d].phase == Returned(hash)
    ensures end.calls[d].phase.Refused? ==> Step(end, Act(d, GetExisting(false))).calls[d].phase == Returned(hash)
  {
    RunKeepsInv(Initial(now), es, mid);
    TimelyIsRun(Initial(now), es, mid);
    RunReturnsOwn(Initial(now), es, mid);
    HashStays(mid, more, end, c, hash);
    StoredIsAnswered(end, c, d, hash);
  }

  // ---- a running withdrawal, and a cleared one ----------------------------------------------------------

  /** Main result. In every timely run, while a call without a hash holds the reservation, a second call for the same
      withdrawal is refused, and throws when it reads. */
  lemma RunningIsReported(now: int, es: seq<Event>, end: State, c: int, d: int)
    requires TimelyRun(Initial(now), es, end)
    requires c in end.calls && Holds(end.calls[c]) && end.calls[c].txHash.None?
    requires d in end.calls && KeyOf(end.calls[d]) == KeyOf(end.calls[c])
    ensures end.calls[d].phase.Started? ==>
      var next := Step(end, Act(d, Reserve(Acknowledged)));
      next.calls[d].phase.Refused? && Step(next, Act(d, GetExisting(false))).calls[d].phase.Threw?
    ensures end.calls[d].phase.Refused? ==> Step(end, Act(d, GetExisting(false))).calls[d].phase.Threw?
  {
    RunKeepsInv(Initial(now), es, end);
    assert Guarded(end, end.calls[c]);
    assert Read(end.store, KeyOf(end.calls[d]), end.now) == Some(RESERVED);
  }

  /** The reservation is there for 300 seconds, and no longer. */
  predicate ReservedFrom(store: Store, key: string, now: int) {
    key in store && store[key] == StoreEntry("__reserved__", Some(now + 300_000))
  }

  lemma DeletedCanStartAgain(s: State, c: int, d: int)
    requires c in s.calls && s.calls[c].phase.Deleting?
    requires d in s.calls && s.calls[d].phase.Started? && KeyOf(s.calls[d]) == KeyOf(s.calls[c])
    ensures var cleared := Step(s, Act(c, ClearDel(Acknowledged)));
            var next := Step(cleared, Act(d, Reserve(Acknowledged)));
      && cleared.calls[c].phase.Threw? && next.calls[d].phase.Working?
      && ReservedFrom(next.store, KeyOf(s.calls[d]), s.now) && next.calls[d].until == s.now + 300_000
  {
  }

  lemma ClearingFindsItsMarker(s: State, c: int)
    requires Inv(s) && c in s.calls && s.calls[c].phase.Clearing?
    ensures Step(s, Act(c, ClearGet(false))).calls[c].phase.Deleting?
  {
    assert Guarded(s, s.calls[c]) && WellFormed(s.calls[c], s.now);
    assert Read(s.store, KeyOf(s.calls[c]), s.now) == Some(RESERVED);
  }

  /** Main result. In every timely run, a call that threw without a hash finds its own marker and deletes it, and then
      a new call for the same withdrawal takes the reservation. */
  lemma ClearedCanStartAgain(now: int, es: seq<Event>, end: State, c: int, d: int)
    requires TimelyRun(Initial(now), es, end) && c in end.calls
    requires d in end.calls && end.calls[d].phase.Started? && KeyOf(end.calls[d]) == KeyOf(end.calls[c])
    ensures end.calls[c].phase.Working? || end.calls[c].phase.Submitted? ==>
      Enabled(end, Act(c, Throw)) && Step(end, Act(c, Throw)).calls[c].phase.Clearing?
    ensures end.calls[c].phase.Clearing? ==> Step(end, Act(c, ClearGet(false))).calls[c].phase.Deleting?
    ensures end.calls[c].phase.Deleting? ==>
      var cleared := Step(end, Act(c, ClearDel(Acknowledged)));
      var next := Step(cleared, Act(d, Reserve(Acknowledged)));
      && cleared.calls[c].phase.Threw? && next.calls[d].phase.Working?
      && ReservedFrom(next.store, KeyOf(end.calls[d]), end.now) && next.calls[d].until == end.now + 300_000
  {
    if end.calls[c].phase.Clearing? {
      RunKeepsInv(Initial(now), es, end);
      ClearingFindsItsMarker(end, c);
    } else if end.calls[c].phase.Deleting? {
      DeletedCanStartAgain(end, c, d);
    }
  }

  // ---- the steps of a call are the store helpers ----------------------------------------------------------

  /** A call whose two answers arrive reads the store as reserveOrGet does. */
  lemma CallIsReserveOrGet(store: Store, now: int, later: int, call: Call)
    requires call.phase.Started?
    ensures var (after, tried) := Acted(store, now, call, Reserve(Acknowledged));
            match ReservationAt(store, KeyOf(call), now, later)
            case Reserved => tried.phase.Working?
            case Existing(hash) =>
              tried.phase.Refused? && Acted(after, later, tried, GetExisting(false)).1.phase == Returned(hash)
            case Inflight =>
              tried.phase.Refused? && Acted(after, later, tried, GetExisting(false)).1.phase == Threw
  {
  }

  /** What is left of the store when a call has cleared, uninterrupted. */
  function ClearedStore(store: Store, now: int, call: Call, failed: bool): Store
    requires call.phase.Clearing?
  {
    var (after, next) := Acted(store, now, call, ClearGet(failed));
    if next.phase.Deleting? then Acted(after, now, next, ClearDel(Acknowledged)).0 else after
  }

  /** A call clears the store as clearReservation does: a live marker goes, a hash never does, and nothing happens
      when the read fails. */
  lemma CallIsClearReservation(store: Store, now: int, call: Call, failed: bool)
    requires call.phase.Clearing?
    ensures ClearedStore(store, now, call, failed)
         == if !failed && Read(store, KeyOf(call), now) == Some("__reserved__") then store - {KeyOf(call)} else store
  {
  }

  // ---- lost and dropped writes ----------------------------------------------------------------------------------

  function Writing(a: Action, write: Write): Action
    requires a.Reserve? || a.Mark? || a.ClearDel?
  {
    a.(write := write)
  }

  /** The same write, whatever becomes of it: dropped, it leaves the store as it was; with its reply lost, it changes
      the store as if acknowledged; and a reservation or deletion whose reply is lost or dropped ends its call. */
  lemma WritesReachOrNot(store: Store, now: int, call: Call, a: Action, write: Write)
    requires (a.Reserve? || a.Mark? || a.ClearDel?) && Ready(call, a)
    ensures Acted(store, now, call, Writing(a, write)).0
         == if write == Dropped then store else Acted(store, now, call, Writing(a, Acknowledged)).0
    ensures a.ClearDel? || (a.Reserve? && write != Acknowledged) ==>
      Acted(store, now, call, Writing(a, write)).1.phase.Threw?
  {
  }
}
