/** The idempotent withdraw/wrap protocol (packages/backend/src/polymarket/relayer-client.ts): any
    number of concurrent calls, interleaved at every await, over one expiring key-value store. */
module Relayer {
  import opened Text
  import opened MockRedis

  const TTL_MS: int := 300_000
  const RESERVED: string := "__reserved__"

  // ---- the idempotency key ---------------------------------------------------------------

  datatype Asset = Pusd | UsdcE | UsdceWrap

  function AssetText(a: Asset): (s: string)
    ensures ColonFree(s)
  {
    match a
    case Pusd => "pusd"
    case UsdcE => "usdc_e"
    case UsdceWrap => "usdce_wrap"
  }

  datatype Request = Request(deposit: string, recipient: string, amountRaw: nat, asset: Asset)

  function IdempotencyKey(r: Request): string {
    "withdraw:pending:" + (Lower(r.deposit) + ":" + (Lower(r.recipient) + ":"
      + (Decimal(r.amountRaw) + ":" + AssetText(r.asset))))
  }

  /** The same withdrawal, up to the letter case of the addresses. */
  predicate SameWithdrawal(a: Request, b: Request) {
    && SameUpToCase(a.deposit, b.deposit) && SameUpToCase(a.recipient, b.recipient)
    && a.amountRaw == b.amountRaw && a.asset == b.asset
  }

  predicate PlainAddresses(r: Request) { ColonFree(r.deposit) && ColonFree(r.recipient) }

  lemma SamePrefix(p: string, a: string, b: string)
    requires p + a == p + b
    ensures a == b
  {
    assert (p + a)[|p|..] == a && (p + b)[|p|..] == b;
  }

  lemma AssetsDiffer(a: Asset, b: Asset)
    requires AssetText(a) == AssetText(b)
    ensures a == b
  {
  }

  /** Main result. For colon-free addresses two requests share a key exactly when they are the same
      withdrawal. */
  lemma KeyIdentifiesWithdrawal(a: Request, b: Request)
    requires PlainAddresses(a) && PlainAddresses(b)
    ensures IdempotencyKey(a) == IdempotencyKey(b) <==> SameWithdrawal(a, b)
  {
    LowerSame(a.deposit, b.deposit);
    LowerSame(a.recipient, b.recipient);
    if IdempotencyKey(a) == IdempotencyKey(b) {
      LowerColonFree(a.deposit); LowerColonFree(b.deposit);
      LowerColonFree(a.recipient); LowerColonFree(b.recipient);
      DigitsColonFree(Decimal(a.amountRaw)); DigitsColonFree(Decimal(b.amountRaw));
      var amountA := Decimal(a.amountRaw) + ":" + AssetText(a.asset);
      var amountB := Decimal(b.amountRaw) + ":" + AssetText(b.asset);
      var tailA, tailB := Lower(a.recipient) + ":" + amountA, Lower(b.recipient) + ":" + amountB;
      SamePrefix("withdraw:pending:", Lower(a.deposit) + ":" + tailA, Lower(b.deposit) + ":" + tailB);
      FirstField(Lower(a.deposit), tailA, Lower(b.deposit), tailB);
      FirstField(Lower(a.recipient), amountA, Lower(b.recipient), amountB);
      FirstField(Decimal(a.amountRaw), AssetText(a.asset), Decimal(b.amountRaw), AssetText(b.asset));
      assert NumeralValue(Decimal(a.amountRaw)) == NumeralValue(Decimal(b.amountRaw));
      AssetsDiffer(a.asset, b.asset);
    }
  }

  /** A colon inside an address is enough for two different withdrawals to collide. */
  lemma ColonsCollide() returns (a: Request, b: Request)
    ensures IdempotencyKey(a) == IdempotencyKey(b) && !SameWithdrawal(a, b)
  {
    a, b := Request("a:b", "c", 1, Pusd), Request("a", "b:c", 1, Pusd);
    assert Lower("a:b") == "a:b" && Lower("c") == "c" && Lower("a") == "a" && Lower("b:c") == "b:c";
  }

  // ---- calls ---------------------------------------------------------------------------------

  datatype Phase =
    | Started            // before SET NX
    | Refused            // SET NX answered null; GET to come
    | Working            // reservation held, nothing submitted
    | Submitted          // the relayer has the transaction, no hash yet
    | Confirmed          // txHash set, first markCompleted to come
    | Remarking          // the first markCompleted threw; the best-effort one to come
    | Clearing           // threw without txHash; GET of clearReservation to come
    | Deleting           // that GET saw the marker; DEL to come
    | Returned(hash: string)
    | Threw

  /** until: when the entry this call last wrote expires. */
  datatype Call = Call(request: Request, phase: Phase, txHash: Option<string>, until: int)

  datatype State = State(now: int, store: Store, calls: map<int, Call>)

  /** What became of a Redis write: applied and acknowledged, applied but the reply lost, or not applied. */
  datatype Write = Acknowledged | ReplyLost | Dropped

  /** One call's next step, up to its next await. */
  datatype Action =
    | Reserve(write: Write)
    | GetExisting(failed: bool)
    | Submit
    | Confirm(hash: string)
    | Throw
    | Mark(write: Write)
    | ClearGet(failed: bool)
    | ClearDel(write: Write)

  datatype Event = Tick(t: int) | Begin(c: int, request: Request) | Act(c: int, action: Action)

  function KeyOf(call: Call): string { IdempotencyKey(call.request) }

  /** Between a successful SET NX and the end of the call. */
  predicate Holds(call: Call) {
    match call.phase
    case Working => true
    case Submitted => true
    case Confirmed => true
    case Remarking => true
    case Clearing => true
    case Deleting => true
    case _ => false
  }

  predicate Ready(call: Call, a: Action) {
    match a
    case Reserve(_) => call.phase.Started?
    case GetExisting(_) => call.phase.Refused?
    case Submit => call.phase.Working?
    case Confirm(hash) => call.phase.Submitted? && hash != ""
    case Throw => call.phase.Working? || call.phase.Submitted?
    case Mark(_) => (call.phase.Confirmed? || call.phase.Remarking?) && call.txHash.Some?
    case ClearGet(_) => call.phase.Clearing?
    case ClearDel(_) => call.phase.Deleting?
  }

  predicate Enabled(s: State, e: Event) {
    match e
    case Tick(t) => t >= s.now
    case Begin(c, _) => c !in s.calls
    case Act(c, a) => c in s.calls && Ready(s.calls[c], a)
  }

  function Put(store: Store, key: string, value: string, now: int): Store {
    store[key := StoreEntry(value, Some(now + TTL_MS))]
  }

  /** The store and the call after one step of the call. */
  function Acted(store: Store, now: int, call: Call, a: Action): (Store, Call)
    requires Ready(call, a)
  {
    var key := KeyOf(call);
    match a
    case Reserve(write) =>
      if Read(store, key, now) == None then
        var phase := if write.Acknowledged? then Working else Threw;
        if write.Dropped? then (store, call.(phase := phase))
        else (Put(store, key, RESERVED, now), call.(phase := phase, until := now + TTL_MS))
      else (store, call.(phase := if write.Acknowledged? then Refused else Threw))
    case GetExisting(failed) =>
      var existing := Read(store, key, now);
      (store, call.(phase :=
        if !failed && existing.Some? && existing.value != "" && existing.value != RESERVED
        then Returned(existing.value) else Threw))
    case Submit => (store, call.(phase := Submitted))
    case Confirm(hash) => (store, call.(phase := Confirmed, txHash := Some(hash)))
    case Throw => (store, call.(phase := Clearing))
    case Mark(write) =>
      var hash := call.txHash.value;
      var phase := if write.Acknowledged? || call.phase.Remarking? then Returned(hash) else Remarking;
      if write.Dropped? then (store, call.(phase := phase))
      else (Put(store, key, hash, now), call.(phase := phase, until := now + TTL_MS))
    case ClearGet(failed) =>
      (store, call.(phase := if !failed && Read(store, key, now) == Some(RESERVED) then Deleting else Threw))
    case ClearDel(write) =>
      (if write.Dropped? then store else store - {key}, call.(phase := Threw))
  }

  function Step(s: State, e: Event): State
    requires Enabled(s, e)
  {
    match e
    case Tick(t) => s.(now := t)
    case Begin(c, request) => s.(calls := s.calls[c := Call(request, Started, None, s.now)])
    case Act(c, a) =>
      var (store, call) := Acted(s.store, s.now, s.calls[c], a);
      State(s.now, store, s.calls[c := call])
  }

  /** The scheduling assumption: the clock does not pass the expiry of a reservation still held. */
  predicate OnTime(s: State, e: Event) {
    e.Tick? ==> forall c :: c in s.calls && Holds(s.calls[c]) ==> e.t <= s.calls[c].until
  }

  predicate Run(s: State, es: seq<Event>, end: State)
    decreases |es|
  {
    if es == [] then s == end else Enabled(s, es[0]) && Run(Step(s, es[0]), es[1..], end)
  }

  predicate TimelyRun(s: State, es: seq<Event>, end: State)
    decreases |es|
  {
    if es == [] then s == end
    else Enabled(s, es[0]) && OnTime(s, es[0]) && TimelyRun(Step(s, es[0]), es[1..], end)
  }

  function Initial(now: int): State { State(now, map[], map[]) }

  // ---- the invariant -------------------------------------------------------------------------

  /** A call shields its key while it holds the reservation, and after its transaction is confirmed
      until the entry it last wrote expires. */
  predicate Shields(call: Call, now: int) { Holds(call) || (call.txHash.Some? && now <= call.until) }

  predicate Marker(call: Call, value: string) {
    value == RESERVED || call.txHash == Some(value)
  }

  /** The store entry under a shielding call's key is that call's own, unexpired. */
  predicate Guarded(s: State, call: Call) {
    var key := KeyOf(call);
    && key in s.store && s.store[key].expiresAt == Some(call.until) && s.now <= call.until
    && Marker(call, s.store[key].value)
  }

  predicate WellFormed(call: Call, now: int) {
    && call.until <= now + TTL_MS
    && (call.txHash.Some? ==> call.phase.Confirmed? || call.phase.Remarking? || call.phase.Returned?)
    && (call.phase.Confirmed? || call.phase.Remarking? ==> call.txHash.Some?)
  }

  predicate Inv(s: State) {
    && (forall c :: c in s.calls ==> WellFormed(s.calls[c], s.now))
    && (forall c :: c in s.calls && Shields(s.calls[c], s.now) ==> Guarded(s, s.calls[c]))
    && (forall c, d :: c in s.calls && d in s.calls && c != d
                       && Shields(s.calls[c], s.now) && Shields(s.calls[d], s.now)
                       ==> KeyOf(s.calls[c]) != KeyOf(s.calls[d]))
  }

  predicate SameEntry(a: Store, b: Store, key: string) {
    (key in a <==> key in b) && (key in a ==> a[key] == b[key])
  }

  /** Another call on the key does not shield it along with this one. */
  lemma ShieldsAlone(s: State, c: int, call: Call, store: Store, d: int)
    requires Inv(s) && c in s.calls && KeyOf(call) == KeyOf(s.calls[c]) && WellFormed(call, s.now)
    requires forall k :: k != KeyOf(call) ==> SameEntry(s.store, store, k)
    requires store != s.store || Shields(call, s.now) ==>
      Shields(s.calls[c], s.now) || Read(s.store, KeyOf(call), s.now) == None
    requires Shields(call, s.now) ==> Guarded(s.(store := store), call)
    requires d in s.calls && d != c && Shields(s.calls[d], s.now) && KeyOf(s.calls[d]) == KeyOf(call)
    ensures store == s.store && !Shields(call, s.now)
  {
    assert Guarded(s, s.calls[d]);
  }

  lemma OthersStayGuarded(s: State, c: int, call: Call, store: Store, d: int)
    requires Inv(s) && c in s.calls && KeyOf(call) == KeyOf(s.calls[c]) && WellFormed(call, s.now)
    requires forall k :: k != KeyOf(call) ==> SameEntry(s.store, store, k)
    requires store != s.store || Shields(call, s.now) ==>
      Shields(s.calls[c], s.now) || Read(s.store, KeyOf(call), s.now) == None
    requires Shields(call, s.now) ==> Guarded(s.(store := store), call)
    requires d in s.calls && d != c && Shields(s.calls[d], s.now)
    ensures Guarded(s.(store := store), s.calls[d])
  {
    assert Guarded(s, s.calls[d]);
    if KeyOf(s.calls[d]) == KeyOf(call) {
      ShieldsAlone(s, c, call, store, d);
    } else {
      assert SameEntry(s.store, store, KeyOf(s.calls[d]));
    }
  }

  /** A call that does not write the store, or only rewrites its own shielded entry, keeps everybody
      else's guard. */
  lemma OwnStepKeepsInv(s: State, c: int, call: Call, store: Store)
    requires Inv(s) && c in s.calls && KeyOf(call) == KeyOf(s.calls[c]) && WellFormed(call, s.now)
    requires forall k :: k != KeyOf(call) ==> SameEntry(s.store, store, k)
    requires store != s.store || Shields(call, s.now) ==>
      Shields(s.calls[c], s.now) || Read(s.store, KeyOf(call), s.now) == None
    requires Shields(call, s.now) ==> Guarded(s.(store := store), call)
    ensures Inv(State(s.now, store, s.calls[c := call]))
  {
    var next := State(s.now, store, s.calls[c := call]);
    forall d | d in next.calls && Shields(next.calls[d], s.now) ensures Guarded(next, next.calls[d]) {
      if d != c { OthersStayGuarded(s, c, call, store, d); }
    }
    forall d | d in s.calls && d != c && Shields(s.calls[d], s.now) && Shields(call, s.now)
      ensures KeyOf(s.calls[d]) != KeyOf(call)
    {
      if KeyOf(s.calls[d]) == KeyOf(call) { ShieldsAlone(s, c, call, store, d); }
    }
  }

  lemma TickKeepsInv(s: State, t: int)
    requires Inv(s) && Enabled(s, Tick(t)) && OnTime(s, Tick(t))
    ensures Inv(Step(s, Tick(t)))
  {
  }

  lemma BeginKeepsInv(s: State, c: int, request: Request)
    requires Inv(s) && c !in s.calls
    ensures Inv(Step(s, Begin(c, request)))
  {
  }

  /** What an action does to its own call's guard and to the other keys. */
  predicate GuardsAfter(store: Store, now: int, call: Call, next: Store, after: Call) {
    && KeyOf(after) == KeyOf(call) && WellFormed(after, now)
    && (next != store || Shields(after, now) ==> Shields(call, now) || Read(store, KeyOf(call), now) == None)
    && (Shields(after, now) ==> Guarded(State(now, next, map[]), after))
  }

  lemma OtherKeysStay(store: Store, now: int, call: Call, a: Action, key: string)
    requires Ready(call, a) && key != KeyOf(call)
    ensures SameEntry(store, Acted(store, now, call, a).0, key)
  {
  }

  lemma WriteGuards(store: Store, now: int, call: Call, a: Action)
    requires (a.Reserve? || a.Mark?) && Ready(call, a) && WellFormed(call, now)
    requires Shields(call, now) ==> Guarded(State(now, store, map[]), call)
    ensures GuardsAfter(store, now, call, Acted(store, now, call, a).0, Acted(store, now, call, a).1)
  {
  }

  lemma NonWriteGuards(store: Store, now: int, call: Call, a: Action)
    requires !a.Reserve? && !a.Mark? && Ready(call, a) && WellFormed(call, now)
    requires Shields(call, now) ==> Guarded(State(now, store, map[]), call)
    ensures GuardsAfter(store, now, call, Acted(store, now, call, a).0, Acted(store, now, call, a).1)
  {
  }

  lemma ActKeepsInv(s: State, c: int, a: Action)
    requires Inv(s) && Enabled(s, Act(c, a))
    ensures Inv(Step(s, Act(c, a)))
  {
    var call := s.calls[c];
    assert Shields(call, s.now) ==> Guarded(s, call);
    if a.Reserve? || a.Mark? {
      WriteGuards(s.store, s.now, call, a);
    } else {
      NonWriteGuards(s.store, s.now, call, a);
    }
    var (store, next) := Acted(s.store, s.now, call, a);
    forall k | k != KeyOf(call) ensures SameEntry(s.store, store, k) {
      OtherKeysStay(s.store, s.now, call, a, k);
    }
    OwnStepKeepsInv(s, c, next, store);
  }

  lemma StepKeepsInv(s: State, e: Event)
    requires Inv(s) && Enabled(s, e) && OnTime(s, e)
    ensures Inv(Step(s, e))
  {
    match e
    case Tick(t) => TickKeepsInv(s, t);
    case Begin(c, request) => BeginKeepsInv(s, c, request);
    case Act(c, a) => ActKeepsInv(s, c, a);
  }

  lemma {:induction false} RunKeepsInv(s: State, es: seq<Event>, end: State)
    requires Inv(s) && TimelyRun(s, es, end)
    ensures Inv(end)
    decreases |es|
  {
    if es != [] {
      StepKeepsInv(s, es[0]);
      RunKeepsInv(Step(s, es[0]), es[1..], end);
    }
  }

  // ---- safety ------------------------------------------------------------------------------------

  /** Main result. In every timely run, at most one call per key is between its successful SET NX and
      its end. */
  lemma AtMostOneHolder(now: int, es: seq<Event>, end: State, c: int, d: int)
    requires TimelyRun(Initial(now), es, end)
    requires c in end.calls && d in end.calls && Holds(end.calls[c]) && Holds(end.calls[d])
    requires KeyOf(end.calls[c]) == KeyOf(end.calls[d])
    ensures c == d
  {
    RunKeepsInv(Initial(now), es, end);
  }

  /** Main result. In every timely run, a call with a transaction hash keeps every other call on its key
      from submitting until the TTL in force expires, whatever became of its two marking writes; and
      the TTL in force is the expiry of the key's store entry. */
  lemma NoSubmitWhileConfirmed(now: int, es: seq<Event>, end: State, c: int, d: int)
    requires TimelyRun(Initial(now), es, end)
    requires c in end.calls && end.calls[c].txHash.Some? && end.now <= end.calls[c].until
    requires d in end.calls && d != c && KeyOf(end.calls[d]) == KeyOf(end.calls[c])
    ensures !Enabled(end, Act(d, Submit))
    ensures !end.calls[d].phase.Submitted?
    ensures var key := KeyOf(end.calls[c]);
            key in end.store && end.store[key].expiresAt == Some(end.calls[c].until)
  {
    RunKeepsInv(Initial(now), es, end);
    assert Guarded(end, end.calls[c]);
  }

  /** A step of any call never shortens the TTL a confirmed call relies on. */
  lemma TtlOnlyGrows(s: State, e: Event, c: int)
    requires Enabled(s, e) && Inv(s) && c in s.calls && s.calls[c].txHash.Some? && s.now <= s.calls[c].until
    ensures Step(s, e).calls[c].until >= s.calls[c].until
    ensures Step(s, e).calls[c].txHash == s.calls[c].txHash
  {
  }

  lemma RunOne(s: State, e: Event, rest: seq<Event>, end: State) returns (es: seq<Event>)
    requires Enabled(s, e) && Run(Step(s, e), rest, end)
    ensures es == [e] + rest && Run(s, es, end)
  {
    es := [e] + rest;
    assert es[1..] == rest;
  }

  lemma OverrunFrom(s: State, r: Request) returns (es: seq<Event>, end: State)
    requires s.now == 0 && s.store == map[] && s.calls.Keys == {1, 2}
    requires s.calls[1] == Call(r, Started, None, 0) == s.calls[2]
    ensures Run(s, es, end) && end.calls.Keys == {1, 2}
    ensures end.calls[1].request == r == end.calls[2].request
    ensures end.calls[1].phase.Submitted? && end.calls[2].phase.Submitted?
  {
    var key := IdempotencyKey(r);
    var s3 := Step(s, Act(1, Reserve(Acknowledged)));
    assert s3.store == map[key := StoreEntry(RESERVED, Some(TTL_MS))];
    assert s3.calls[1] == Call(r, Working, None, TTL_MS);
    var s4 := Step(s3, Act(1, Submit));
    var s5 := Step(s4, Tick(TTL_MS + 1));
    assert Read(s5.store, key, s5.now) == None && s5.calls[2].phase == Started;
    var s6 := Step(s5, Act(2, Reserve(Acknowledged)));
    end := Step(s6, Act(2, Submit));
    es := RunOne(s6, Act(2, Submit), [], end);
    es := RunOne(s5, Act(2, Reserve(Acknowledged)), es, end);
    es := RunOne(s4, Tick(TTL_MS + 1), es, end);
    es := RunOne(s3, Act(1, Submit), es, end);
    es := RunOne(s, Act(1, Reserve(Acknowledged)), es, end);
  }

  /** The timing assumption is needed: a holder that overruns its TTL lets a second call submit. */
  lemma OverrunSubmitsTwice(r: Request) returns (es: seq<Event>, end: State)
    ensures Run(Initial(0), es, end) && !TimelyRun(Initial(0), es, end)
    ensures end.calls.Keys == {1, 2}
    ensures end.calls[1].request == r == end.calls[2].request
    ensures end.calls[1].phase.Submitted? && end.calls[2].phase.Submitted?
  {
    var s0 := Initial(0);
    var s1 := Step(s0, Begin(1, r));
    var s2 := Step(s1, Begin(2, r));
    es, end := OverrunFrom(s2, r);
    es := RunOne(s1, Begin(2, r), es, end);
    es := RunOne(s0, Begin(1, r), es, end);
    if TimelyRun(s0, es, end) {
      AtMostOneHolder(0, es, end, 1, 2);
    }
  }

  // ---- exactly when a key has two holders ---------------------------------------------------------

  predicate HoldsKey(s: State, c: int, key: string) {
    c in s.calls && Holds(s.calls[c]) && KeyOf(s.calls[c]) == key
  }

  ghost predicate TwoHolders(s: State, key: string) {
    exists c, d :: c != d && HoldsKey(s, c, key) && HoldsKey(s, d, key)
  }

  /** A SET NX that takes the key while an earlier holder of it has outlived its entry. */
  ghost predicate LateReserve(s: State, e: Event, key: string) {
    && e.Act? && e.action == Reserve(Acknowledged)
    && e.c in s.calls && s.calls[e.c].phase.Started? && KeyOf(s.calls[e.c]) == key
    && Read(s.store, key, s.now) == None
    && exists d :: HoldsKey(s, d, key) && s.now > s.calls[d].until
  }

  /** One holder at most, and unless it has outlived its entry, the entry is there. */
  ghost predicate SoleHolder(s: State, key: string) {
    && !TwoHolders(s, key)
    && forall c :: HoldsKey(s, c, key) && s.now <= s.calls[c].until ==>
         key in s.store && s.store[key].expiresAt == Some(s.calls[c].until)
  }

  /** A call that is no holder becomes one only by a SET NX that finds no live value, and otherwise leaves live
      entries alone. */
  lemma OtherActs(store: Store, now: int, call: Call, a: Action)
    requires Ready(call, a) && !Holds(call)
    ensures var (next, after) := Acted(store, now, call, a);
      && KeyOf(after) == KeyOf(call)
      && (Holds(after) <==> a == Reserve(Acknowledged) && Read(store, KeyOf(call), now) == None)
      && (Holds(after) ==> KeyOf(call) in next && next[KeyOf(call)].expiresAt == Some(after.until))
      && (forall k :: k != KeyOf(call) || Read(store, k, now) != None ==>
            (k in next <==> k in store) && (k in next ==> next[k] == store[k]))
  {
  }

  /** What a holder's action does to one key. */
  lemma HolderActs(s: State, c: int, a: Action, key: string)
    requires Enabled(s, Act(c, a)) && Holds(s.calls[c])
    requires KeyOf(s.calls[c]) == key && s.now <= s.calls[c].until ==>
      key in s.store && s.store[key].expiresAt == Some(s.calls[c].until)
    ensures var next := Step(s, Act(c, a));
      && KeyOf(next.calls[c]) == KeyOf(s.calls[c])
      && (KeyOf(s.calls[c]) != key ==> SameEntry(s.store, next.store, key))
      && (KeyOf(s.calls[c]) == key && Holds(next.calls[c]) && s.now <= next.calls[c].until ==>
            key in next.store && next.store[key].expiresAt == Some(next.calls[c].until))
  {
  }

  lemma ActKeepsSoleHolder(s: State, c: int, a: Action, key: string)
    requires SoleHolder(s, key) && Enabled(s, Act(c, a)) && !LateReserve(s, Act(c, a), key)
    ensures SoleHolder(Step(s, Act(c, a)), key)
  {
    var next := Step(s, Act(c, a));
    if Holds(s.calls[c]) {
      assert HoldsKey(s, c, key) <==> KeyOf(s.calls[c]) == key;
      HolderActs(s, c, a, key);
    } else {
      OtherActs(s.store, s.now, s.calls[c], a);
    }
    assert forall d :: d != c ==> HoldsKey(next, d, key) == HoldsKey(s, d, key);
  }

  lemma StepKeepsSoleHolder(s: State, e: Event, key: string)
    requires SoleHolder(s, key) && Enabled(s, e) && !LateReserve(s, e, key)
    ensures SoleHolder(Step(s, e), key)
  {
    if e.Act? {
      ActKeepsSoleHolder(s, e.c, e.action, key);
    } else {
      assert forall d :: HoldsKey(Step(s, e), d, key) ==> HoldsKey(s, d, key) && Step(s, e).calls[d] == s.calls[d];
    }
  }

  lemma LateReserveMakesTwo(s: State, e: Event, key: string)
    requires Enabled(s, e) && LateReserve(s, e, key)
    ensures TwoHolders(Step(s, e), key)
  {
    var d :| HoldsKey(s, d, key) && s.now > s.calls[d].until;
    assert HoldsKey(Step(s, e), d, key) && HoldsKey(Step(s, e), e.c, key);
  }

  /** At some state of the run the key has two holders. */
  ghost predicate EverTwo(s: State, es: seq<Event>, key: string, end: State)
    requires Run(s, es, end)
    decreases |es|
  {
    TwoHolders(s, key) || (es != [] && EverTwo(Step(s, es[0]), es[1..], key, end))
  }

  ghost predicate EverLate(s: State, es: seq<Event>, key: string, end: State)
    requires Run(s, es, end)
    decreases |es|
  {
    es != [] && (LateReserve(s, es[0], key) || EverLate(Step(s, es[0]), es[1..], key, end))
  }

  lemma {:induction false} EverTwoIffLate(s: State, es: seq<Event>, key: string, end: State)
    requires SoleHolder(s, key) && Run(s, es, end)
    ensures EverTwo(s, es, key, end) <==> EverLate(s, es, key, end)
    decreases |es|
  {
    if es != [] {
      var next := Step(s, es[0]);
      if LateReserve(s, es[0], key) {
        LateReserveMakesTwo(s, es[0], key);
        assert EverTwo(next, es[1..], key, end);
      } else {
        StepKeepsSoleHolder(s, es[0], key);
        EverTwoIffLate(next, es[1..], key, end);
      }
    }
  }

  /** Main result. In every run, timely or not, a key has two holders at some moment if and only if at some moment a
      SET NX takes it while an earlier holder of it has outlived its entry. */
  lemma SecondHolderIffOutlived(now: int, es: seq<Event>, key: string, end: State)
    requires Run(Initial(now), es, end)
    ensures EverTwo(Initial(now), es, key, end) <==> EverLate(Initial(now), es, key, end)
  {
    EverTwoIffLate(Initial(now), es, key, end);
  }

  // ---- provenance of returned hashes -------------------------------------------------------------

  /** Some call on this key had this hash confirmed on chain. */
  predicate ConfirmedOn(s: State, key: string, hash: string) {
    exists c :: c in s.calls && KeyOf(s.calls[c]) == key && s.calls[c].txHash == Some(hash)
  }

  predicate StoreTraceable(s: State) {
    forall key :: key in s.store ==> s.store[key].value == RESERVED || ConfirmedOn(s, key, s.store[key].value)
  }

  predicate ReturnsTraceable(s: State) {
    forall c :: c in s.calls && s.calls[c].phase.Returned? ==> ConfirmedOn(s, KeyOf(s.calls[c]), s.calls[c].phase.hash)
  }

  /** A hash is only there from its confirmation on. */
  predicate HashesFit(s: State) {
    forall c :: c in s.calls && s.calls[c].txHash.Some? ==>
      s.calls[c].phase.Confirmed? || s.calls[c].phase.Remarking? || s.calls[c].phase.Returned?
  }

  predicate Traceable(s: State) { StoreTraceable(s) && ReturnsTraceable(s) && HashesFit(s) }

  /** No action of a call that has its hash, or none yet to lose, takes a hash away. */
  lemma ActedKeepsHash(store: Store, now: int, call: Call, a: Action)
    requires Ready(call, a)
    requires call.txHash.Some? ==> call.phase.Confirmed? || call.phase.Remarking? || call.phase.Returned?
    ensures Acted(store, now, call, a).1.request == call.request
    ensures call.txHash.Some? ==> Acted(store, now, call, a).1.txHash == call.txHash
  {
  }

  lemma ActConfirmationPersists(s: State, d: int, a: Action, c: int)
    requires d in s.calls && Ready(s.calls[d], a) && Traceable(s) && c in s.calls && s.calls[c].txHash.Some?
    ensures var next := Step(s, Act(d, a));
            && c in next.calls && next.calls[c].txHash == s.calls[c].txHash
            && KeyOf(next.calls[c]) == KeyOf(s.calls[c])
  {
    if c == d { ActedKeepsHash(s.store, s.now, s.calls[d], a); }
  }

  lemma ConfirmationsPersist(s: State, e: Event, key: string, hash: string)
    requires Enabled(s, e) && Traceable(s) && ConfirmedOn(s, key, hash)
    ensures ConfirmedOn(Step(s, e), key, hash)
  {
    var c :| c in s.calls && KeyOf(s.calls[c]) == key && s.calls[c].txHash == Some(hash);
    if e.Act? {
      ActConfirmationPersists(s, e.c, e.action, c);
    } else {
      assert c in Step(s, e).calls && Step(s, e).calls[c] == s.calls[c];
    }
  }

  /** Where a step's store values and returned hashes come from. */
  lemma ActedOrigins(store: Store, now: int, call: Call, a: Action)
    requires Ready(call, a)
    ensures var (next, after) := Acted(store, now, call, a);
      && (forall k :: k in next ==>
            || (k in store && next[k] == store[k])
            || (k == KeyOf(after) && (next[k].value == RESERVED || after.txHash == Some(next[k].value))))
      && (after.phase.Returned? ==>
            || after.phase == call.phase || after.txHash == Some(after.phase.hash)
            || (KeyOf(call) in store && store[KeyOf(call)].value == after.phase.hash != RESERVED))
  {
  }

  lemma StoreStaysTraceable(s: State, e: Event, key: string)
    requires Enabled(s, e) && Traceable(s)
    requires key in Step(s, e).store && Step(s, e).store[key].value != RESERVED
    ensures ConfirmedOn(Step(s, e), key, Step(s, e).store[key].value)
  {
    var next := Step(s, e);
    if e.Act? {
      ActedOrigins(s.store, s.now, s.calls[e.c], e.action);
      assert e.c in next.calls;
    }
    if key in s.store && next.store[key] == s.store[key] {
      ConfirmationsPersist(s, e, key, s.store[key].value);
    }
  }

  /** A hash that a step leaves as returned is the call's own, or was confirmed on its key before. */
  lemma ReturnedFrom(s: State, e: Event, c: int)
    requires Enabled(s, e) && Traceable(s)
    requires c in Step(s, e).calls && Step(s, e).calls[c].phase.Returned?
    ensures var call := Step(s, e).calls[c];
            call.txHash == Some(call.phase.hash) || ConfirmedOn(s, KeyOf(call), call.phase.hash)
  {
    if e.Act? && e.c == c {
      ActedOrigins(s.store, s.now, s.calls[c], e.action);
      ActedKeepsHash(s.store, s.now, s.calls[c], e.action);
    }
  }

  lemma ReturnsStayTraceable(s: State, e: Event, c: int)
    requires Enabled(s, e) && Traceable(s)
    requires c in Step(s, e).calls && Step(s, e).calls[c].phase.Returned?
    ensures var call := Step(s, e).calls[c]; ConfirmedOn(Step(s, e), KeyOf(call), call.phase.hash)
  {
    var call := Step(s, e).calls[c];
    ReturnedFrom(s, e, c);
    if call.txHash != Some(call.phase.hash) { ConfirmationsPersist(s, e, KeyOf(call), call.phase.hash); }
  }

  lemma StepKeepsStore(s: State, e: Event)
    requires Enabled(s, e) && Traceable(s)
    ensures StoreTraceable(Step(s, e))
  {
    var next := Step(s, e);
    forall key | key in next.store && next.store[key].value != RESERVED
      ensures ConfirmedOn(next, key, next.store[key].value)
    {
      StoreStaysTraceable(s, e, key);
    }
  }

  lemma StepKeepsReturns(s: State, e: Event)
    requires Enabled(s, e) && Traceable(s)
    ensures ReturnsTraceable(Step(s, e))
  {
    var next := Step(s, e);
    forall c | c in next.calls && next.calls[c].phase.Returned?
      ensures ConfirmedOn(next, KeyOf(next.calls[c]), next.calls[c].phase.hash)
    {
      ReturnsStayTraceable(s, e, c);
    }
  }

  lemma StepKeepsHashes(s: State, e: Event)
    requires Enabled(s, e) && HashesFit(s)
    ensures HashesFit(Step(s, e))
  {
  }

  lemma StepKeepsTraceable(s: State, e: Event)
    requires Enabled(s, e) && Traceable(s)
    ensures Traceable(Step(s, e))
  {
    StepKeepsStore(s, e);
    StepKeepsReturns(s, e);
    StepKeepsHashes(s, e);
  }

  lemma {:induction false} RunKeepsTraceable(s: State, es: seq<Event>, end: State)
    requires Traceable(s) && Run(s, es, end)
    ensures Traceable(end)
    decreases |es|
  {
    if es != [] {
      StepKeepsTraceable(s, es[0]);
      RunKeepsTraceable(Step(s, es[0]), es[1..], end);
    }
  }

  /** Main result. In every run, timely or not, a hash returned to a caller was confirmed on chain by a
      call for the same withdrawal. */
  lemma ReturnedHashWasConfirmed(now: int, es: seq<Event>, end: State, c: int)
    requires Run(Initial(now), es, end)
    requires forall d :: d in end.calls ==> PlainAddresses(end.calls[d].request)
    requires c in end.calls && end.calls[c].phase.Returned?
    ensures exists d :: d in end.calls && end.calls[d].txHash == Some(end.calls[c].phase.hash)
                     && SameWithdrawal(end.calls[d].request, end.calls[c].request)
  {
    RunKeepsTraceable(Initial(now), es, end);
    var d :| d in end.calls && KeyOf(end.calls[d]) == KeyOf(end.calls[c])
          && end.calls[d].txHash == Some(end.calls[c].phase.hash);
    KeyIdentifiesWithdrawal(end.calls[d].request, end.calls[c].request);
  }

  // ---- the three store helpers, run without interruption against the mock -------------------------

  datatype Reservation = Reserved | Existing(hash: string) | Inflight

  /** What reserveOrGet answers when SET NX runs at `now` and the GET, if reached, at `later`. */
  function ReservationAt(store: Store, key: string, now: int, later: int): Reservation {
    if Read(store, key, now) == None then Reserved
    else
      var existing := Read(store, key, later);
      if existing.Some? && existing.value != "" && existing.value != RESERVED then Existing(existing.value)
      else Inflight
  }

  method ReserveOrGet(redis: Client, key: string, now: int, later: int) returns (r: Reservation)
    requires now <= later
    modifies redis`store
    ensures r == ReservationAt(old(redis.store), key, now, later)
    ensures r.Reserved? ==> key in redis.store && redis.store[key] == StoreEntry(RESERVED, Some(now + TTL_MS))
    ensures !r.Reserved? ==> Unobservable(old(redis.store), redis.store, later)
  {
    var ok := redis.Set(key, RESERVED, Some(TTL_MS), true, now);
    if ok { return Reserved; }
    var existing := redis.Get(key, later);
    if existing.Some? && existing.value != "" && existing.value != RESERVED {
      return Existing(existing.value);
    }
    return Inflight;
  }

  method MarkCompleted(redis: Client, key: string, hash: string, now: int)
    modifies redis`store
    ensures Read(redis.store, key, now + TTL_MS) == Some(hash) && Read(redis.store, key, now + TTL_MS + 1) == None
    ensures redis.store - {key} == old(redis.store) - {key}
  {
    var _ := redis.Set(key, hash, Some(TTL_MS), false, now);
  }

  /** Uninterrupted, clearReservation deletes a live marker and nothing else. */
  method ClearReservation(redis: Client, key: string, now: int)
    modifies redis`store
    ensures Read(old(redis.store), key, now) == Some(RESERVED) ==> redis.store == old(redis.store) - {key}
    ensures Read(old(redis.store), key, now) != Some(RESERVED) ==> Unobservable(old(redis.store), redis.store, now)
  {
    var current := redis.Get(key, now);
    if current == Some(RESERVED) {
      var _ := redis.Del(key);
    }
  }

  /** A reservation taken by reserveOrGet and marked or cleared by its owner in time answers a retry
      with the hash, or lets it reserve again. */
  method RetryAfter(redis: Client, key: string, hash: Option<string>, t0: int, t1: int, t2: int)
    returns (first: Reservation, retry: Reservation)
    requires t0 <= t1 <= t2 && t1 <= t0 + TTL_MS && t2 <= t1 + TTL_MS
    requires hash.Some? ==> hash.value != "" && hash.value != RESERVED
    modifies redis`store
    ensures first.Reserved? && hash.Some? ==> retry == Existing(hash.value)
    ensures first.Reserved? && hash.None? ==> retry == Reserved
  {
    first := ReserveOrGet(redis, key, t0, t0);
    if first.Reserved? {
      if hash.Some? { MarkCompleted(redis, key, hash.value, t1); } else { ClearReservation(redis, key, t1); }
    }
    retry := ReserveOrGet(redis, key, t2, t2);
  }
}
