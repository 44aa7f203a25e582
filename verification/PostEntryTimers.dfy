/** Per-position timers for post-entry mid samples (packages/crypto-algo/src/post-entry-mid-logger.ts).
    Time is in milliseconds; one call runs at one clock reading. */
module PostEntryTimers {
  import opened Text

  const POST_ENTRY_MID_OFFSETS_MS: seq<int> := [1000, 5000, 30000]

  predicate NoDup<T(==)>(s: seq<T>) { forall i, j :: 0 <= i < j < |s| ==> s[i] != s[j] }

  /** The offsets asked for or, by default, a distinct increasing list. */
  function OffsetsOf(offsetsMs: Option<seq<int>>): (offsets: seq<int>)
    ensures offsetsMs.Some? ==> offsets == offsetsMs.value
    ensures offsetsMs.None? ==> offsets == [1_000, 5_000, 30_000] && NoDup(offsets)
  {
    if offsetsMs.Some? then offsetsMs.value else POST_ENTRY_MID_OFFSETS_MS
  }

  /** One armed setTimeout of a schedule: which position it samples, and when. */
  datatype Timer = Timer(position: Option<int>, offset: int, filledAt: int, due: int)

  /** Armed timers by id, the timers listed by each position's registered handle, and the next fresh id. */
  datatype State = State(live: map<nat, Timer>, handles: map<int, seq<nat>>, next: nat)

  const LOADED: State := State(map[], map[], 0)

  // ---- steps on values ----------------------------------------------------------------------------------

  function Armed(position: Option<int>, offset: int, filledAt: int, now: int): Timer {
    var delay := filledAt + offset - now;
    Timer(position, offset, filledAt, now + if delay > 0 then delay else 0)
  }

  function Ids(from: nat, n: nat): (ids: seq<nat>)
    ensures |ids| == n && forall i :: 0 <= i < n ==> ids[i] == from + i
    ensures forall t :: t in ids <==> from <= t < from + n
  {
    if n == 0 then [] else Ids(from, n - 1) + [from + n - 1]
  }

  function NewTimers(from: nat, position: Option<int>, offsets: seq<int>, filledAt: int, now: int)
    : (added: map<nat, Timer>)
    ensures forall t :: t in added <==> from <= t < from + |offsets|
    ensures forall t :: t in added ==> added[t] == Armed(position, offsets[t - from], filledAt, now)
  {
    map t | t in Ids(from, |offsets|) :: Armed(position, offsets[t - from], filledAt, now)
  }

  ghost function Closing(from: nat, n: nat, handle: Handle): (closure: map<nat, Handle>)
    ensures forall t :: t in closure <==> from <= t < from + n
    ensures forall t :: t in closure ==> closure[t] == handle
  {
    map t | t in Ids(from, n) :: handle
  }

  lemma PlusOne<V>(a: map<nat, V>, b: map<nat, V>, t: nat, v: V)
    ensures a + b[t := v] == (a + b)[t := v]
  {
  }

  lemma OneMoreClosing(from: nat, i: nat, handle: Handle)
    ensures Closing(from, i + 1, handle) == Closing(from, i, handle)[from + i := handle]
  {
  }

  lemma OneMoreTimer(from: nat, position: Option<int>, offsets: seq<int>, i: nat, filledAt: int, now: int)
    requires i < |offsets|
    ensures NewTimers(from, position, offsets[..i + 1], filledAt, now)
         == NewTimers(from, position, offsets[..i], filledAt, now)
              [from + i := Armed(position, offsets[i], filledAt, now)]
  {
  }

  /** What one more round of the scheduling loop adds. */
  lemma OneMore(armed: map<nat, Timer>, closure: map<nat, Handle>, handle: Handle, from: nat, offsets: seq<int>, i: nat,
                filledAt: int, now: int)
    requires i < |offsets|
    ensures armed + NewTimers(from, handle.positionId, offsets[..i + 1], filledAt, now)
         == (armed + NewTimers(from, handle.positionId, offsets[..i], filledAt, now))
              [from + i := Armed(handle.positionId, offsets[i], filledAt, now)]
    ensures closure + Closing(from, i + 1, handle) == (closure + Closing(from, i, handle))[from + i := handle]
  {
    OneMoreTimer(from, handle.positionId, offsets, i, filledAt, now);
    PlusOne(armed, NewTimers(from, handle.positionId, offsets[..i], filledAt, now), from + i,
            Armed(handle.positionId, offsets[i], filledAt, now));
    OneMoreClosing(from, i, handle);
    PlusOne(closure, Closing(from, i, handle), from + i, handle);
  }

  function Elements(s: seq<nat>): set<nat> { set t | t in s }

  /** timers.indexOf and splice: the first occurrence goes, the rest keeps its order. */
  function Without(s: seq<nat>, t: nat): seq<nat> {
    if s == [] then [] else if s[0] == t then s[1..] else [s[0]] + Without(s[1..], t)
  }

  function Cancelled(s: State, p: int): State {
    if p in s.handles then s.(live := s.live - Elements(s.handles[p]), handles := s.handles - {p}) else s
  }

  function Scheduled(s: State, position: Option<int>, offsets: seq<int>, filledAt: int, now: int): State {
    var n := |offsets|;
    var armed := s.(live := s.live + NewTimers(s.next, position, offsets, filledAt, now), next := s.next + n);
    if position.None? then armed
    else
      var free := Cancelled(armed, position.value);
      free.(handles := free.handles[position.value := Ids(s.next, n)])
  }

  function Delisted(handles: map<int, seq<nat>>, p: int, t: nat): map<int, seq<nat>>
    requires p in handles
  {
    var left := Without(handles[p], t);
    if left == [] then handles - {p} else handles[p := left]
  }

  function Fired(s: State, t: nat): State
    requires t in s.live
  {
    var position := s.live[t].position;
    State(s.live - {t},
          if position.Some? && position.value in s.handles then Delisted(s.handles, position.value, t) else s.handles,
          s.next)
  }

  lemma {:induction false} WithoutElements(s: seq<nat>, t: nat)
    requires NoDup(s) && t in s
    ensures NoDup(Without(s, t))
    ensures forall u :: u in Without(s, t) <==> u in s && u != t
  {
    if s[0] != t {
      assert t in s[1..];
      WithoutElements(s[1..], t);
      var left := Without(s[1..], t);
      assert forall u :: u in s[1..] ==> u != s[0];
      assert forall i :: 0 <= i < |left| ==> left[i] in left;
      assert s == [s[0]] + s[1..];
    } else {
      assert s == [t] + s[1..];
    }
  }

  // ---- what every step keeps ------------------------------------------------------------------------------

  /** A position's registered handle lists exactly the live timers of that position, each once. */
  ghost predicate ListsExactly(s: State, p: int)
    requires p in s.handles
  {
    NoDup(s.handles[p]) && forall t :: t in s.handles[p] <==> t in s.live && s.live[t].position == Some(p)
  }

  ghost predicate Inv(s: State) {
    && (forall p :: p in s.handles ==> ListsExactly(s, p))
    && (forall t :: t in s.live ==> t < s.next && s.live[t].due >= s.live[t].filledAt + s.live[t].offset)
    && (forall t :: t in s.live && s.live[t].position.Some? ==> s.live[t].position.value in s.handles)
  }

  /** Ids are fresh, and a live timer of this position is listed by its handle. */
  ghost predicate Fits(s: State, position: Option<int>) {
    && (forall t :: t in s.live ==> t < s.next)
    && (forall t :: t in s.live && position.Some? && s.live[t].position == position ==>
          position.value in s.handles && t in s.handles[position.value])
  }

  lemma InvFits(s: State, position: Option<int>)
    requires Inv(s)
    ensures Fits(s, position)
  {
    assert position.Some? && position.value in s.handles ==> ListsExactly(s, position.value);
  }

  lemma CancelKeepsInv(s: State, p: int)
    requires Inv(s)
    ensures Inv(Cancelled(s, p))
    ensures forall t :: t in Cancelled(s, p).live ==> t in s.live && s.live[t].position != Some(p)
  {
  }

  lemma MinusPlus<V>(a: map<nat, V>, b: map<nat, V>, gone: set<nat>)
    requires gone !! b.Keys
    ensures (a + b) - gone == (a - gone) + b
  {
  }

  /** The timers a handle lists are not among those still to come. */
  lemma OldAndNewApart(s: State, p: int, added: map<nat, Timer>)
    requires Inv(s) && p in s.handles && forall t :: t in added ==> t >= s.next
    ensures Elements(s.handles[p]) !! added.Keys
  {
    assert ListsExactly(s, p);
  }

  /** Arming the new timers first and cancelling the old handle after comes to cancelling first. */
  lemma ScheduleCancelsFirst(s: State, p: int, offsets: seq<int>, filledAt: int, now: int)
    requires Inv(s)
    ensures Scheduled(s, Some(p), offsets, filledAt, now)
         == State(Cancelled(s, p).live + NewTimers(s.next, Some(p), offsets, filledAt, now),
                  Cancelled(s, p).handles[p := Ids(s.next, |offsets|)], s.next + |offsets|)
  {
    if p in s.handles {
      var added := NewTimers(s.next, Some(p), offsets, filledAt, now);
      OldAndNewApart(s, p, added);
      MinusPlus(s.live, added, Elements(s.handles[p]));
    }
  }

  lemma AddKeepsInv(free: State, p: int, added: map<nat, Timer>, n: nat)
    requires Inv(free) && p !in free.handles
    requires forall t :: t in added <==> free.next <= t < free.next + n
    requires forall t :: t in added ==> added[t].position == Some(p)
    requires forall t :: t in added ==> added[t].due >= added[t].filledAt + added[t].offset
    ensures Inv(State(free.live + added, free.handles[p := Ids(free.next, n)], free.next + n))
  {
  }

  lemma ScheduleKeepsInv(s: State, position: Option<int>, offsets: seq<int>, filledAt: int, now: int)
    requires Inv(s)
    ensures Inv(Scheduled(s, position, offsets, filledAt, now))
  {
    var next := Scheduled(s, position, offsets, filledAt, now);
    var added := NewTimers(s.next, position, offsets, filledAt, now);
    if position.Some? {
      CancelKeepsInv(s, position.value);
      ScheduleCancelsFirst(s, position.value, offsets, filledAt, now);
      AddKeepsInv(Cancelled(s, position.value), position.value, added, |offsets|);
    } else {
      forall q | q in next.handles ensures ListsExactly(next, q) {
        assert ListsExactly(s, q);
      }
    }
  }

  lemma FireKeepsInv(s: State, t: nat)
    requires Inv(s) && t in s.live
    ensures Inv(Fired(s, t))
  {
    var next := Fired(s, t);
    if s.live[t].position.Some? {
      var p := s.live[t].position.value;
      assert ListsExactly(s, p);
      WithoutElements(s.handles[p], t);
    }
    forall q | q in next.handles ensures ListsExactly(next, q) {
      assert ListsExactly(s, q);
    }
    forall u | u in next.live && next.live[u].position.Some? ensures next.live[u].position.value in next.handles {
      assert ListsExactly(s, next.live[u].position.value);
    }
  }

  // ---- the module's objects -------------------------------------------------------------------------------

  class Handle {
    var timers: seq<nat>
    const positionId: Option<int>

    constructor (positionId: Option<int>)
      ensures timers == [] && this.positionId == positionId
    {
      timers, this.positionId := [], positionId;
    }
  }

  datatype SamplePoint = SamplePoint(offsetMs: int, sampledAtMs: int)

  class PostEntryMidLogger {
    var activeTimers: set<nat>
    var handlesByPositionId: map<int, Handle>
    /** The event loop's side: what would still fire, the handle each callback closes over, the next id. */
    var armed: map<nat, Timer>
    var closure: map<nat, Handle>
    var nextTimer: nat
    /** The timer lists of the registered handles. */
    ghost var listed: map<int, seq<nat>>

    constructor ()
      ensures Valid() && View() == LOADED
    {
      activeTimers, handlesByPositionId, armed, closure, nextTimer := {}, map[], map[], map[], 0;
      listed := map[];
    }

    ghost function View(): State
      reads this
    {
      State(armed, listed, nextTimer)
    }

    ghost predicate Wired()
      reads this, handlesByPositionId.Values
    {
      && activeTimers == armed.Keys && closure.Keys == armed.Keys
      && handlesByPositionId.Keys == listed.Keys
      && (forall p :: p in handlesByPositionId ==> handlesByPositionId[p].positionId == Some(p))
      && (forall p :: p in handlesByPositionId ==> handlesByPositionId[p].timers == listed[p])
      && (forall t :: t in closure ==> closure[t].positionId == armed[t].position)
    }

    ghost function Registered(position: Option<int>): set<Handle>
      reads this
    {
      if position.Some? && position.value in handlesByPositionId then {handlesByPositionId[position.value]} else {}
    }

    /** An armed callback of a registered position closes over the registered handle. */
    ghost predicate Linked()
      reads this
    {
      forall t, p :: t in closure && p in handlesByPositionId && closure[t].positionId == Some(p) ==>
        closure[t] == handlesByPositionId[p]
    }

    ghost predicate Valid()
      reads this, handlesByPositionId.Values
    {
      Wired() && Linked() && Inv(View())
    }

    /** The cancel closure of a handle. */
    method CancelHandle(h: Handle)
      requires activeTimers == armed.Keys == closure.Keys
      modifies this`activeTimers, this`armed, this`closure, this`handlesByPositionId, this`listed, h
      ensures activeTimers == armed.Keys == closure.Keys && h.timers == []
      ensures armed == old(armed) - Elements(old(h.timers)) && closure == old(closure) - Elements(old(h.timers))
      ensures handlesByPositionId ==
        if h.positionId.Some? then old(handlesByPositionId) - {h.positionId.value} else old(handlesByPositionId)
      ensures listed == if h.positionId.Some? then old(listed) - {h.positionId.value} else old(listed)
    {
      for i := 0 to |h.timers|
        invariant h.timers == old(h.timers)
        invariant handlesByPositionId == old(handlesByPositionId) && listed == old(listed)
        invariant activeTimers == armed.Keys == closure.Keys
        invariant armed == old(armed) - Elements(h.timers[..i]) && closure == old(closure) - Elements(h.timers[..i])
      {
        var timer := h.timers[i];
        assert h.timers[..i + 1] == h.timers[..i] + [timer];
        if timer in activeTimers {
          armed, closure := armed - {timer}, closure - {timer};
          activeTimers := activeTimers - {timer};
        }
      }
      assert h.timers[..|h.timers|] == h.timers;
      h.timers := [];
      if h.positionId.Some? {
        handlesByPositionId, listed := handlesByPositionId - {h.positionId.value}, listed - {h.positionId.value};
      }
    }

    method CancelForPosition(positionId: int) returns (found: bool)
      requires Wired()
      modifies this`activeTimers, this`armed, this`closure, this`handlesByPositionId, this`listed
      modifies Registered(Some(positionId))
      ensures Wired() && View() == Cancelled(old(View()), positionId)
      ensures found == (positionId in old(handlesByPositionId))
      ensures handlesByPositionId == old(handlesByPositionId) - {positionId}
      ensures forall t :: t in closure ==> t in old(closure) && closure[t] == old(closure)[t]
      ensures old(Valid()) ==> Valid()
    {
      if positionId !in handlesByPositionId { return false; }
      if old(Inv(View())) { CancelKeepsInv(View(), positionId); }
      CancelHandle(handlesByPositionId[positionId]);
      return true;
    }

    method ClearTimers()
      requires Valid()
      modifies this`activeTimers, this`armed, this`closure, this`handlesByPositionId, this`listed
      ensures Valid() && View() == State(map[], map[], old(nextTimer))
    {
      var todo := activeTimers;
      while todo != {}
        invariant todo == armed.Keys == closure.Keys
        decreases todo
      {
        var timer :| timer in todo;
        armed, closure := armed - {timer}, closure - {timer};
        todo := todo - {timer};
      }
      activeTimers := {};
      handlesByPositionId, listed := map[], map[];
    }

    /** One round of the scheduling loop. */
    method Arm(handle: Handle, offset: int, filledAt: int, now: int)
      requires activeTimers == armed.Keys == closure.Keys
      modifies this`activeTimers, this`armed, this`closure, this`nextTimer, handle
      ensures activeTimers == armed.Keys == closure.Keys && nextTimer == old(nextTimer) + 1
      ensures armed == old(armed)[old(nextTimer) := Armed(handle.positionId, offset, filledAt, now)]
      ensures closure == old(closure)[old(nextTimer) := handle]
      ensures handle.timers == old(handle.timers) + [old(nextTimer)]
    {
      var timer := nextTimer;
      nextTimer := nextTimer + 1;
      armed := armed[timer := Armed(handle.positionId, offset, filledAt, now)];
      closure := closure[timer := handle];
      activeTimers := activeTimers + {timer};
      handle.timers := handle.timers + [timer];
    }

    /** The scheduling loop. */
    method ArmAll(handle: Handle, offsets: seq<int>, filledAt: int, now: int)
      requires activeTimers == armed.Keys == closure.Keys && handle.timers == []
      modifies this`activeTimers, this`armed, this`closure, this`nextTimer, handle
      ensures activeTimers == armed.Keys == closure.Keys && handle.timers == Ids(old(nextTimer), |offsets|)
      ensures nextTimer == old(nextTimer) + |offsets|
      ensures armed == old(armed) + NewTimers(old(nextTimer), handle.positionId, offsets, filledAt, now)
      ensures closure == old(closure) + Closing(old(nextTimer), |offsets|, handle)
    {
      ghost var from, were, closed := nextTimer, armed, closure;
      for i := 0 to |offsets|
        invariant nextTimer == from + i && handle.timers == Ids(from, i)
        invariant activeTimers == armed.Keys == closure.Keys
        invariant armed == were + NewTimers(from, handle.positionId, offsets[..i], filledAt, now)
        invariant closure == closed + Closing(from, i, handle)
      {
        OneMore(were, closed, handle, from, offsets, i, filledAt, now);
        Arm(handle, offsets[i], filledAt, now);
      }
      assert offsets[..|offsets|] == offsets;
    }

    /** The end of a schedule: a previous handle of the position is cancelled and replaced. */
    method Replace(positionId: int, handle: Handle)
      requires Wired() && handle.positionId == Some(positionId) && handle !in handlesByPositionId.Values
      requires forall t, p ::
        t in closure && p in handlesByPositionId && p != positionId && closure[t].positionId == Some(p) ==>
        closure[t] == handlesByPositionId[p]
      requires forall t :: t in Cancelled(View(), positionId).live && closure[t].positionId == Some(positionId) ==>
        closure[t] == handle
      modifies this`activeTimers, this`armed, this`closure, this`handlesByPositionId, this`listed
      modifies Registered(Some(positionId))
      ensures Wired() && Linked()
      ensures var left := Cancelled(old(View()), positionId);
              View() == left.(handles := left.handles[positionId := handle.timers])
      ensures handle.timers == old(handle.timers)
    {
      var _ := CancelForPosition(positionId);
      handlesByPositionId := handlesByPositionId[positionId := handle];
      listed := listed[positionId := handle.timers];
    }

    method ArmNew(positionId: Option<int>, offsets: seq<int>, filledAt: int, now: int) returns (handle: Handle)
      requires Wired()
      modifies this`activeTimers, this`armed, this`closure, this`nextTimer
      ensures Wired() && fresh(handle)
      ensures handle.timers == Ids(old(nextTimer), |offsets|) && handle.positionId == positionId
      ensures armed == old(armed) + NewTimers(old(nextTimer), positionId, offsets, filledAt, now)
      ensures closure == old(closure) + Closing(old(nextTimer), |offsets|, handle)
      ensures nextTimer == old(nextTimer) + |offsets|
      ensures old(Linked()) && positionId.None? ==> Linked()
    {
      handle := new Handle(positionId);
      ArmAll(handle, offsets, filledAt, now);
    }

    /** Arming the timers, then replacing the position's handle. */
    method ArmAndRegister(positionId: Option<int>, offsets: seq<int>, filledAt: int, now: int) returns (handle: Handle)
      requires Wired() && Linked() && Fits(View(), positionId)
      modifies this, Registered(positionId)
      ensures Wired() && Linked() && fresh(handle)
      ensures handle.timers == Ids(old(nextTimer), |offsets|) && handle.positionId == positionId
      ensures View() == Scheduled(old(View()), positionId, offsets, filledAt, now)
    {
      handle := ArmNew(positionId, offsets, filledAt, now);
      if positionId.Some? { Replace(positionId.value, handle); }
    }

    method Schedule(positionId: Option<int>, offsetsMs: Option<seq<int>>, filledAtMs: Option<int>, now: int)
      returns (handle: Handle)
      requires Valid()
      modifies this, Registered(positionId)
      ensures Valid() && fresh(handle)
      ensures handle.timers == Ids(old(nextTimer), |OffsetsOf(offsetsMs)|) && handle.positionId == positionId
      ensures View() ==
        Scheduled(old(View()), positionId, OffsetsOf(offsetsMs),
                  if filledAtMs.Some? then filledAtMs.value else now, now)
    {
      var offsets := OffsetsOf(offsetsMs);
      var filledAt := if filledAtMs.Some? then filledAtMs.value else now;
      ScheduleKeepsInv(View(), positionId, offsets, filledAt, now);
      InvFits(View(), positionId);
      handle := ArmAndRegister(positionId, offsets, filledAt, now);
    }

    /** The bookkeeping half of a timer's callback. */
    method Forget(timer: nat)
      requires Wired() && Linked() && timer in armed
      modifies this`activeTimers, this`armed, this`closure, this`handlesByPositionId, this`listed, closure[timer]
      ensures Wired() && Linked() && View() == Fired(old(View()), timer)
    {
      var handle := closure[timer];
      armed, closure := armed - {timer}, closure - {timer};
      activeTimers := activeTimers - {timer};
      Unlist(handle, timer);
    }

    /** timers.splice, and the registry entry of an emptied handle. */
    method Unlist(handle: Handle, timer: nat)
      requires Wired()
      requires forall p :: p in handlesByPositionId && handle.positionId == Some(p) ==> handlesByPositionId[p] == handle
      modifies this`handlesByPositionId, this`listed, handle
      ensures Wired() && handlesByPositionId.Keys <= old(handlesByPositionId).Keys
      ensures forall p :: p in handlesByPositionId ==> handlesByPositionId[p] == old(handlesByPositionId)[p]
      ensures listed == if handle.positionId.Some? && handle.positionId.value in old(listed)
                        then Delisted(old(listed), handle.positionId.value, timer) else old(listed)
    {
      handle.timers := Without(handle.timers, timer);
      if handle.positionId.Some? && handle.positionId.value in handlesByPositionId {
        listed := Delisted(listed, handle.positionId.value, timer);
      }
      if handle.timers == [] && handle.positionId.Some? {
        handlesByPositionId := handlesByPositionId - {handle.positionId.value};
      }
    }

    /** The callback of a timer that is due. */
    method Fire(timer: nat, now: int) returns (sample: SamplePoint)
      requires Valid() && timer in armed && armed[timer].due <= now
      modifies this`activeTimers, this`armed, this`closure, this`handlesByPositionId, this`listed, closure[timer]
      ensures Valid() && View() == Fired(old(View()), timer)
      ensures sample == SamplePoint(old(armed)[timer].offset, now)
    {
      FireKeepsInv(View(), timer);
      sample := SamplePoint(armed[timer].offset, now);
      Forget(timer);
    }
  }

  // ---- every run ------------------------------------------------------------------------------------------

  datatype Event =
    | Schedule(at: int, position: Option<int>, offsets: seq<int>, filledAt: Option<int>)
    | Fire(at: int, timer: nat)
    | Cancel(p: int)
    | ClearAll

  predicate Enabled(s: State, e: Event) {
    e.Fire? ==> e.timer in s.live && s.live[e.timer].due <= e.at
  }

  function Step(s: State, e: Event): State
    requires Enabled(s, e)
  {
    match e
    case Schedule(at, position, offsets, filledAt) =>
      Scheduled(s, position, offsets, if filledAt.Some? then filledAt.value else at, at)
    case Fire(_, timer) => Fired(s, timer)
    case Cancel(p) => Cancelled(s, p)
    case ClearAll => State(map[], map[], s.next)
  }

  predicate Run(s: State, es: seq<Event>, end: State)
    decreases |es|
  {
    if es == [] then s == end else Enabled(s, es[0]) && Run(Step(s, es[0]), es[1..], end)
  }

  lemma StepKeepsInv(s: State, e: Event)
    requires Inv(s) && Enabled(s, e)
    ensures Inv(Step(s, e))
  {
    match e
    case Schedule(at, position, offsets, filledAt) =>
      ScheduleKeepsInv(s, position, offsets, if filledAt.Some? then filledAt.value else at, at);
    case Fire(_, timer) => FireKeepsInv(s, timer);
    case Cancel(p) => CancelKeepsInv(s, p);
    case ClearAll =>
  }

  lemma {:induction false} RunKeepsInv(s: State, es: seq<Event>, end: State)
    requires Inv(s) && Run(s, es, end)
    ensures Inv(end)
    decreases |es|
  {
    if es != [] {
      StepKeepsInv(s, es[0]);
      RunKeepsInv(Step(s, es[0]), es[1..], end);
    }
  }

  /** Main result. In every run a registered handle lists exactly its position's live timers, each once, and
      a position with a live timer has a registered handle. */
  lemma HandlesListLiveTimers(es: seq<Event>, end: State)
    requires Run(LOADED, es, end)
    ensures forall p :: p in end.handles ==> ListsExactly(end, p)
    ensures forall t :: t in end.live && end.live[t].position.Some? ==> end.live[t].position.value in end.handles
  {
    RunKeepsInv(LOADED, es, end);
  }

  // ---- one timer per offset ---------------------------------------------------------------------------------

  predicate SamePosition(t: Timer, u: Timer) { t.position.Some? && t.position == u.position }

  ghost predicate OnePerOffset(s: State) {
    forall t, u :: t in s.live && u in s.live && t != u && SamePosition(s.live[t], s.live[u]) ==>
      s.live[t].offset != s.live[u].offset
  }

  lemma ScheduleKeepsOnePerOffset(s: State, position: Option<int>, offsets: seq<int>, filledAt: int, now: int)
    requires Inv(s) && OnePerOffset(s) && NoDup(offsets)
    ensures OnePerOffset(Scheduled(s, position, offsets, filledAt, now))
  {
    if position.Some? {
      CancelKeepsInv(s, position.value);
      ScheduleCancelsFirst(s, position.value, offsets, filledAt, now);
    }
  }

  lemma StepKeepsOnePerOffset(s: State, e: Event)
    requires Inv(s) && Enabled(s, e) && OnePerOffset(s) && (e.Schedule? ==> NoDup(e.offsets))
    ensures OnePerOffset(Step(s, e))
  {
    if e.Schedule? {
      ScheduleKeepsOnePerOffset(s, e.position, e.offsets, if e.filledAt.Some? then e.filledAt.value else e.at, e.at);
    } else {
      assert forall t :: t in Step(s, e).live ==> t in s.live && Step(s, e).live[t] == s.live[t];
    }
  }

  /** Main result. When every schedule's offsets are distinct, as the default ones are, no position ever has
      two live timers for one offset, however often it is scheduled again. */
  lemma {:induction false} OneTimerPerOffset(s: State, es: seq<Event>, end: State)
    requires Inv(s) && OnePerOffset(s) && Run(s, es, end)
    requires forall i :: 0 <= i < |es| && es[i].Schedule? ==> NoDup(es[i].offsets)
    ensures OnePerOffset(end)
    decreases |es|
  {
    if es != [] {
      StepKeepsInv(s, es[0]);
      StepKeepsOnePerOffset(s, es[0]);
      OneTimerPerOffset(Step(s, es[0]), es[1..], end);
    }
  }

  // ---- no earlier sample --------------------------------------------------------------------------------------

  /** An event after which no timer armed before it may sample position p. */
  predicate Replaces(e: Event, p: int) {
    e == Cancel(p) || e == ClearAll || (e.Schedule? && e.position == Some(p))
  }

  ghost predicate OnlySince(s: State, p: int, from: nat) {
    from <= s.next && forall t :: t in s.live && s.live[t].position == Some(p) ==> from <= t
  }

  lemma ReplaceCutsOff(s: State, e: Event, p: int)
    requires Inv(s) && Enabled(s, e) && Replaces(e, p)
    ensures OnlySince(Step(s, e), p, s.next)
  {
  }

  lemma StepOnlySince(s: State, e: Event, p: int, from: nat)
    requires OnlySince(s, p, from) && Enabled(s, e)
    ensures OnlySince(Step(s, e), p, from)
  {
  }

  lemma {:induction false} RunOnlySince(s: State, es: seq<Event>, end: State, p: int, from: nat)
    requires OnlySince(s, p, from) && Run(s, es, end)
    ensures OnlySince(end, p, from)
    decreases |es|
  {
    if es != [] {
      StepOnlySince(s, es[0], p, from);
      RunOnlySince(Step(s, es[0]), es[1..], end, p, from);
    }
  }

  /** Main result. After a cancel, a clear or a re-schedule of position p, whatever runs later, a timer that
      can fire for p was armed by that event or after it. */
  lemma NoEarlierSample(before: seq<Event>, s: State, e: Event, p: int, after: seq<Event>, end: State, fire: Event)
    requires Run(LOADED, before, s) && Enabled(s, e) && Replaces(e, p) && Run(Step(s, e), after, end)
    requires fire.Fire? && Enabled(end, fire) && end.live[fire.timer].position == Some(p)
    ensures fire.timer >= s.next
  {
    RunKeepsInv(LOADED, before, s);
    ReplaceCutsOff(s, e, p);
    RunOnlySince(Step(s, e), after, end, p, s.next);
  }

  // ---- every offset sampled once ---------------------------------------------------------------------------------

  function Fires(t: nat, es: seq<Event>): nat {
    if es == [] then 0 else (if es[0].Fire? && es[0].timer == t then 1 else 0) + Fires(t, es[1..])
  }

  predicate Disturbs(e: Event, position: Option<int>) {
    e == ClearAll || (position.Some? && Replaces(e, position.value))
  }

  lemma GoneStaysGone(s: State, es: seq<Event>, end: State, t: nat)
    requires t < s.next && t !in s.live && Run(s, es, end)
    ensures Fires(t, es) == 0 && t !in end.live
    decreases |es|
  {
    if es != [] {
      GoneStaysGone(Step(s, es[0]), es[1..], end, t);
    }
  }

  lemma UndisturbedStep(s: State, e: Event, t: nat)
    requires Inv(s) && Enabled(s, e) && t in s.live && !Disturbs(e, s.live[t].position)
    requires !(e.Fire? && e.timer == t)
    ensures t in Step(s, e).live && Step(s, e).live[t] == s.live[t]
  {
  }

  /** Main result. An armed timer that nothing cancels, clears or replaces samples exactly once if it is gone
      at the end and not at all if it is still armed. */
  lemma {:induction false} SampledOnce(s: State, es: seq<Event>, end: State, t: nat)
    requires Inv(s) && t in s.live && Run(s, es, end)
    requires forall i :: 0 <= i < |es| ==> !Disturbs(es[i], s.live[t].position)
    ensures Fires(t, es) == if t in end.live then 0 else 1
    ensures t in end.live ==> end.live[t] == s.live[t]
    decreases |es|
  {
    if es != [] {
      var next := Step(s, es[0]);
      StepKeepsInv(s, es[0]);
      if es[0].Fire? && es[0].timer == t {
        GoneStaysGone(next, es[1..], end, t);
      } else {
        UndisturbedStep(s, es[0], t);
        SampledOnce(next, es[1..], end, t);
      }
    }
  }

  /** A sample is never taken before its offset after the fill, and never twice by one timer. */
  lemma NeverEarlyNorTwice(es: seq<Event>, s: State, fire: Event, after: seq<Event>, end: State)
    requires Run(LOADED, es, s) && fire.Fire? && Enabled(s, fire) && Run(Step(s, fire), after, end)
    ensures fire.at >= s.live[fire.timer].filledAt + s.live[fire.timer].offset
    ensures Fires(fire.timer, after) == 0
  {
    RunKeepsInv(LOADED, es, s);
    GoneStaysGone(Step(s, fire), after, end, fire.timer);
  }

  // ---- forgotten positions -----------------------------------------------------------------------------

  ghost predicate HasTimer(s: State, p: int) { exists t :: t in s.live && s.live[t].position == Some(p) }

  /** A timer of position p that fires leaves the position registered if and only if it leaves another timer of it. */
  lemma FireForgetsIff(es: seq<Event>, s: State, fire: Event, p: int)
    requires Run(LOADED, es, s) && fire.Fire? && Enabled(s, fire) && s.live[fire.timer].position == Some(p)
    ensures p in Step(s, fire).handles <==> HasTimer(Step(s, fire), p)
  {
    RunKeepsInv(LOADED, es, s);
    WithoutElements(s.handles[p], fire.timer);
    var next := Step(s, fire);
    StepKeepsInv(s, fire);
    if p in next.handles {
      var left := next.handles[p];
      assert ListsExactly(next, p) && left == Without(s.handles[p], fire.timer) && left != [];
      assert left[0] in left;
    }
  }

  // ---- sampled in time ----------------------------------------------------------------------------------

  /** Due at its offset after the fill, or at once if that is past already. */
  predicate DueFor(t: Timer, e: Event, i: nat)
    requires e.Schedule? && i < |e.offsets|
  {
    && t.position == e.position && t.offset == e.offsets[i]
    && t.filledAt == (match e.filledAt case Some(filled) => filled case None => e.at)
    && (if t.filledAt + t.offset >= e.at then t.due == t.filledAt + t.offset else t.due == e.at)
  }

  lemma {:induction false} ScheduleArms(s: State, e: Event, i: nat)
    requires e.Schedule? && i < |e.offsets|
    requires e.position.Some? && e.position.value in s.handles ==> s.next + i !in Elements(s.handles[e.position.value])
    ensures var next := Step(s, e); s.next + i in next.live && DueFor(next.live[s.next + i], e, i)
  {
    var filled, t := if e.filledAt.Some? then e.filledAt.value else e.at, s.next + i;
    var added := NewTimers(s.next, e.position, e.offsets, filled, e.at);
    assert t in added && DueFor(added[t], e, i);
  }

  /** What a run does to a timer: it has fired once, or it can fire from the time it is due on. */
  ghost predicate OnceOrWaiting(t: nat, es: seq<Event>, end: State, e: Event, i: nat)
    requires e.Schedule? && i < |e.offsets|
  {
    if t in end.live
    then
      && Fires(t, es) == 0 && DueFor(end.live[t], e, i)
      && forall at :: Enabled(end, Fire(at, t)) <==> at >= end.live[t].due
    else Fires(t, es) == 1
  }

  /** The i-th offset of the schedule e is armed as timer t, with the registered handles in order. */
  ghost predicate ArmedBy(next: State, t: nat, e: Event, i: nat)
    requires e.Schedule? && i < |e.offsets|
  {
    Inv(next) && t in next.live && DueFor(next.live[t], e, i)
  }

  /** Main result. In every run a schedule arms each of its offsets, due at the offset after the fill, or at the moment
      of the schedule if that is later. */
  lemma EachOffsetIsArmed(before: seq<Event>, s: State, e: Event, i: nat)
    requires Run(LOADED, before, s) && e.Schedule? && i < |e.offsets|
    ensures ArmedBy(Step(s, e), s.next + i, e, i)
  {
    RunKeepsInv(LOADED, before, s);
    StepKeepsInv(s, e);
    if e.position.Some? && e.position.value in s.handles {
      OldAndNewApart(s, e.position.value, NewTimers(s.next, e.position, e.offsets, 0, 0));
    }
    ScheduleArms(s, e, i);
  }

  /** Main result. An armed offset that nothing cancels, clears or replaces is sampled exactly once, or its timer is
      still armed and can fire from the time it is due on. */
  lemma {:induction false} EachOffsetInTime(s: State, es: seq<Event>, end: State, t: nat, e: Event, i: nat)
    requires e.Schedule? && i < |e.offsets|
    requires ArmedBy(s, t, e, i) && Run(s, es, end)
    requires forall k :: 0 <= k < |es| ==> !Disturbs(es[k], e.position)
    ensures OnceOrWaiting(t, es, end, e, i)
  {
    SampledOnce(s, es, end, t);
  }
}
