/** The in-memory Redis of the end-to-end tests (e2e/crypto-algo/helpers/redis-mock.ts): an expiring
    string store and lists held as shared, in-place arrays. */
module MockRedis {
  import opened Text

  // ---- the string store, on values ---------------------------------------------------------

  datatype StoreEntry = StoreEntry(value: string, expiresAt: Option<int>)

  type Store = map<string, StoreEntry>

  predicate Live(store: Store, key: string, now: int) {
    key in store && (store[key].expiresAt.Some? ==> now <= store[key].expiresAt.value)
  }

  /** What GET answers at time now. */
  function Read(store: Store, key: string, now: int): Option<string> {
    if Live(store, key, now) then Some(store[key].value) else None
  }

  /** Expired entries may be dropped at any time: no reader can tell, now or later. */
  ghost predicate Unobservable(a: Store, b: Store, now: int) {
    forall k, t :: t >= now ==> Read(a, k, t) == Read(b, k, t)
  }

  // ---- lists, on values -----------------------------------------------------------------------

  function Count(s: seq<string>, v: string): nat {
    if s == [] then 0 else (if s[0] == v then 1 else 0) + Count(s[1..], v)
  }

  function Without(s: seq<string>, v: string): seq<string> {
    if s == [] then []
    else (if s[0] == v then [] else [s[0]]) + Without(s[1..], v)
  }

  /** LREM with a positive count: drop the first n occurrences of v. */
  function RemoveFirst(s: seq<string>, n: nat, v: string): seq<string> {
    if s == [] || n == 0 then s
    else if s[0] == v then RemoveFirst(s[1..], n - 1, v)
    else [s[0]] + RemoveFirst(s[1..], n, v)
  }

  /** LREM with a negative count: drop the last n occurrences of v. */
  function RemoveLast(s: seq<string>, n: nat, v: string): seq<string> {
    if s == [] || n == 0 then s
    else
      var front, last := s[..|s| - 1], s[|s| - 1];
      if last == v then RemoveLast(front, n - 1, v) else RemoveLast(front, n, v) + [last]
  }

  function Min(a: nat, b: nat): nat { if a <= b then a else b }

  lemma {:induction false} CountConcat(a: seq<string>, b: seq<string>, v: string)
    ensures Count(a + b, v) == Count(a, v) + Count(b, v)
  {
    if a == [] {
      assert a + b == b;
    } else {
      assert (a + b)[1..] == a[1..] + b;
      CountConcat(a[1..], b, v);
    }
  }

  lemma {:induction false} WithoutConcat(a: seq<string>, b: seq<string>, v: string)
    ensures Without(a + b, v) == Without(a, v) + Without(b, v)
  {
    if a == [] {
      assert a + b == b;
    } else {
      assert (a + b)[1..] == a[1..] + b;
      WithoutConcat(a[1..], b, v);
    }
  }

  lemma Snoc(front: seq<string>, last: string, v: string)
    ensures Count(front + [last], v) == Count(front, v) + if last == v then 1 else 0
    ensures Without(front + [last], v) == Without(front, v) + if last == v then [] else [last]
  {
    CountConcat(front, [last], v);
    WithoutConcat(front, [last], v);
  }

  /** Removing the first n occurrences cleans a prefix and leaves the rest of the list as it was;
      the prefix holds min(n, all) occurrences. */
  lemma {:induction false} RemoveFirstCut(s: seq<string>, n: nat, v: string) returns (k: nat)
    ensures k <= |s|
    ensures RemoveFirst(s, n, v) == Without(s[..k], v) + s[k..]
    ensures Count(s[..k], v) == Min(n, Count(s, v))
  {
    if s == [] || n == 0 {
      k := 0;
    } else {
      var k' := RemoveFirstCut(s[1..], if s[0] == v then n - 1 else n, v);
      k := k' + 1;
      assert s[..k][1..] == s[1..][..k'] && s[k..] == s[1..][k'..];
    }
  }

  lemma RemoveLastSnoc(front: seq<string>, last: string, n: nat, v: string)
    requires n > 0
    ensures RemoveLast(front + [last], n, v)
         == if last == v then RemoveLast(front, n - 1, v) else RemoveLast(front, n, v) + [last]
  {
    assert (front + [last])[..|front|] == front;
  }

  lemma Assoc(a: seq<string>, b: seq<string>, c: seq<string>)
    ensures (a + b) + c == a + (b + c)
  {
  }

  lemma SlicesOfSnoc(s: seq<string>, k: nat)
    requires k < |s|
    ensures var front, last := s[..|s| - 1], s[|s| - 1];
            s == front + [last] && s[k..] == front[k..] + [last] && s[..k] == front[..k]
  {
  }

  lemma LastCutStep(front: seq<string>, last: string, n: nat, v: string, k: nat)
    requires k <= |front| && n > 0
    requires var m := if last == v then n - 1 else n;
      RemoveLast(front, m, v) == front[..k] + Without(front[k..], v) && Count(front[k..], v) == Min(m, Count(front, v))
    ensures RemoveLast(front + [last], n, v) == front[..k] + Without(front[k..] + [last], v)
    ensures Count(front[k..] + [last], v) == Min(n, Count(front + [last], v))
  {
    Snoc(front, last, v);
    Snoc(front[k..], last, v);
    RemoveLastSnoc(front, last, n, v);
    Assoc(front[..k], Without(front[k..], v), if last == v then [] else [last]);
  }

  /** Removing the last n occurrences cleans a suffix and leaves what precedes it as it was. */
  lemma {:induction false} RemoveLastCut(s: seq<string>, n: nat, v: string) returns (k: nat)
    ensures k <= |s|
    ensures RemoveLast(s, n, v) == s[..k] + Without(s[k..], v)
    ensures Count(s[k..], v) == Min(n, Count(s, v))
    decreases |s|
  {
    if s == [] || n == 0 {
      k := |s|;
    } else {
      var front, last := s[..|s| - 1], s[|s| - 1];
      k := RemoveLastCut(front, if last == v then n - 1 else n, v);
      LastCutStep(front, last, n, v, k);
      SlicesOfSnoc(s, k);
    }
  }

  lemma {:induction false} CleanIsClean(s: seq<string>, v: string)
    ensures Count(Without(s, v), v) == 0 && Without(Without(s, v), v) == Without(s, v)
  {
    if s != [] {
      CleanIsClean(s[1..], v);
      var clean := Without(s[1..], v);
      if s[0] == v {
        assert Without(s, v) == clean;
      } else {
        assert Without(s, v) == [s[0]] + clean && Without(s, v)[1..] == clean;
      }
    }
  }

  /** Cleaning one end of a list keeps every other element, in order, and drops exactly the occurrences
      counted in that end. */
  lemma {:induction false} CleaningKeepsOthers(a: seq<string>, b: seq<string>, v: string)
    ensures Without(Without(a, v) + b, v) == Without(a + b, v) == Without(a + Without(b, v), v)
    ensures Count(Without(a, v) + b, v) == Count(a + b, v) - Count(a, v)
    ensures Count(a + Without(b, v), v) == Count(a + b, v) - Count(b, v)
  {
    CleanIsClean(a, v);
    CleanIsClean(b, v);
    WithoutConcat(a, b, v);
    WithoutConcat(Without(a, v), b, v);
    WithoutConcat(a, Without(b, v), v);
    CountConcat(a, b, v);
    CountConcat(Without(a, v), b, v);
    CountConcat(a, Without(b, v), v);
  }

  /** However many first occurrences go, every other element stays, in order. */
  lemma {:induction false} RemoveFirstKeepsOthers(s: seq<string>, n: nat, v: string)
    ensures Without(RemoveFirst(s, n, v), v) == Without(s, v)
    ensures Count(RemoveFirst(s, n, v), v) == Count(s, v) - Min(n, Count(s, v))
  {
    var k := RemoveFirstCut(s, n, v);
    assert s[..k] + s[k..] == s;
    CleaningKeepsOthers(s[..k], s[k..], v);
  }

  lemma {:induction false} RemoveLastKeepsOthers(s: seq<string>, n: nat, v: string)
    ensures Without(RemoveLast(s, n, v), v) == Without(s, v)
    ensures Count(RemoveLast(s, n, v), v) == Count(s, v) - Min(n, Count(s, v))
  {
    var k := RemoveLastCut(s, n, v);
    assert s[..k] + s[k..] == s;
    CleaningKeepsOthers(s[..k], s[k..], v);
  }

  lemma {:induction false} RemoveOneMultiset(s: seq<string>, v: string)
    requires v in s
    ensures multiset(RemoveFirst(s, 1, v)) == multiset(s) - multiset{v}
  {
    assert s == [s[0]] + s[1..];
    if s[0] != v {
      RemoveOneMultiset(s[1..], v);
    }
  }

  // ---- the objects ----------------------------------------------------------------------------

  /** A JavaScript array: shared by reference, changed in place. */
  class JsArray {
    var items: seq<string>

    constructor (items: seq<string>)
      ensures this.items == items
    {
      this.items := items;
    }
  }

  /** The list with the matches from i on taken out. */
  function Cleaned(s: seq<string>, i: nat, v: string): seq<string>
    requires i <= |s|
  {
    s[..i] + Without(s[i..], v)
  }

  lemma CleanOneMore(s: seq<string>, i: nat, v: string)
    requires i < |s|
    ensures Without(s[i..], v) == (if s[i] == v then [] else [s[i]]) + Without(s[i + 1..], v)
    ensures Count(s[i..], v) == (if s[i] == v then 1 else 0) + Count(s[i + 1..], v)
  {
    assert s[i..][1..] == s[i + 1..];
  }

  /** One round of the loop from the back. */
  lemma CleanedStep(s: seq<string>, i: nat, v: string)
    requires i < |s|
    ensures var items := Cleaned(s, i + 1, v);
            && |items| > i && items[i] == s[i]
            && Cleaned(s, i, v) == if s[i] == v then items[..i] + items[i + 1..] else items
  {
    CleanOneMore(s, i, v);
    assert s[..i + 1] == s[..i] + [s[i]];
  }

  /** The count-zero loop: from the back, splicing every match out. */
  method RemoveAll(list: JsArray, value: string) returns (removed: nat)
    modifies list
    ensures list.items == Without(old(list.items), value) && removed == Count(old(list.items), value)
  {
    ghost var before := list.items;
    removed := 0;
    var i := |list.items| - 1;
    assert before[|before|..] == [];
    while i >= 0
      invariant -1 <= i < |before|
      invariant list.items == Cleaned(before, i + 1, value)
      invariant removed == Count(before[i + 1..], value)
    {
      CleanedStep(before, i, value);
      CleanOneMore(before, i, value);
      if list.items[i] == value {
        list.items := list.items[..i] + list.items[i + 1..];
        removed := removed + 1;
      }
      i := i - 1;
    }
    assert before[0..] == before;
  }

  /** The list the counted loop ends with when it stands at i with some removals remaining. */
  function Swept(items: seq<string>, i: int, forward: bool, remaining: nat, v: string): seq<string>
    requires -1 <= i <= |items|
    decreases if forward then |items| - i else i + 1
  {
    if !(0 <= i < |items| && remaining > 0) then items
    else if items[i] == v then
      Swept(items[..i] + items[i + 1..], if forward then i else i - 1, forward, remaining - 1, v)
    else Swept(items, if forward then i + 1 else i - 1, forward, remaining, v)
  }

  lemma {:induction false} SweptForward(items: seq<string>, i: nat, remaining: nat, v: string)
    requires i <= |items|
    ensures Swept(items, i, true, remaining, v) == items[..i] + RemoveFirst(items[i..], remaining, v)
    decreases |items| - i
  {
    if i == |items| || remaining == 0 {
      assert items[..i] + items[i..] == items;
    } else {
      var left, rest := items[..i] + items[i + 1..], items[i + 1..];
      assert items[i..][1..] == rest;
      if items[i] == v {
        SweptForward(left, i, remaining - 1, v);
        assert left[..i] == items[..i] && left[i..] == rest;
      } else {
        SweptForward(items, i + 1, remaining, v);
        assert items[..i + 1] == items[..i] + [items[i]];
      }
    }
  }

  lemma {:induction false} SweptBackward(items: seq<string>, i: int, remaining: nat, v: string)
    requires -1 <= i < |items|
    ensures Swept(items, i, false, remaining, v) == RemoveLast(items[..i + 1], remaining, v) + items[i + 1..]
    decreases i + 1
  {
    if i == -1 || remaining == 0 {
      assert items[..i + 1] + items[i + 1..] == items;
    } else {
      var front, rest := items[..i], items[i + 1..];
      assert items[..i + 1] == front + [items[i]];
      RemoveLastSnoc(front, items[i], remaining, v);
      if items[i] == v {
        SweptBackward(front + rest, i - 1, remaining - 1, v);
        assert (front + rest)[..i] == front && (front + rest)[i..] == rest;
      } else {
        SweptBackward(items, i - 1, remaining, v);
        assert items[i..] == [items[i]] + rest;
        Assoc(RemoveLast(front, remaining, v), [items[i]], rest);
      }
    }
  }

  lemma SweptAll(items: seq<string>, remaining: nat, v: string)
    ensures Swept(items, 0, true, remaining, v) == RemoveFirst(items, remaining, v)
    ensures Swept(items, |items| - 1, false, remaining, v) == RemoveLast(items, remaining, v)
  {
    SweptForward(items, 0, remaining, v);
    SweptBackward(items, |items| - 1, remaining, v);
    assert items[..|items|] == items == items[0..];
  }

  lemma {:induction false} RemoveFirstLength(s: seq<string>, n: nat, v: string)
    ensures |RemoveFirst(s, n, v)| == |s| - Min(n, Count(s, v))
  {
    if s != [] && n != 0 {
      RemoveFirstLength(s[1..], if s[0] == v then n - 1 else n, v);
    }
  }

  lemma {:induction false} RemoveLastLength(s: seq<string>, n: nat, v: string)
    ensures |RemoveLast(s, n, v)| == |s| - Min(n, Count(s, v))
    decreases |s|
  {
    if s != [] && n != 0 {
      var front, last := s[..|s| - 1], s[|s| - 1];
      assert s == front + [last];
      CountConcat(front, [last], v);
      RemoveLastLength(front, if last == v then n - 1 else n, v);
    }
  }

  /** The counted loop, in either direction. */
  method RemoveSome(list: JsArray, count: int, value: string) returns (removed: nat)
    requires count != 0
    modifies list
    ensures count > 0 ==> list.items == RemoveFirst(old(list.items), count, value)
    ensures count < 0 ==> list.items == RemoveLast(old(list.items), -count, value)
    ensures removed == Min(if count > 0 then count else -count, Count(old(list.items), value))
  {
    ghost var before := list.items;
    var direction := if count > 0 then 1 else -1;
    var remaining: nat := if count > 0 then count else -count;
    SweptAll(before, remaining, value);
    RemoveFirstLength(before, remaining, value);
    RemoveLastLength(before, remaining, value);
    removed := 0;
    var i := if direction > 0 then 0 else |list.items| - 1;
    ghost var all := Swept(before, i, count > 0, remaining, value);
    while 0 <= i < |list.items| && remaining > 0
      invariant -1 <= i <= |list.items|
      invariant removed == |before| - |list.items|
      invariant Swept(list.items, i, count > 0, remaining, value) == all
      decreases if direction > 0 then |list.items| - i else i + 1
    {
      if list.items[i] == value {
        list.items := list.items[..i] + list.items[i + 1..];
        removed := removed + 1;
        remaining := remaining - 1;
        if direction > 0 { i := i - 1; }
      }
      i := i + direction;
    }
  }

  class Client {
    var store: Store
    var lists: map<string, JsArray>

    constructor ()
      ensures Valid() && store == map[] && lists == map[]
    {
      store, lists := map[], map[];
    }

    /** No two keys share an array. */
    ghost predicate Valid()
      reads this
    {
      forall j, k :: j in lists && k in lists && j != k ==> lists[j] != lists[k]
    }

    ghost function Items(key: string): seq<string>
      reads this, lists.Values
    {
      if key in lists then lists[key].items else []
    }

    method Get(key: string, now: int) returns (value: Option<string>)
      modifies this`store
      ensures value == Read(old(store), key, now)
      ensures store == old(store) || store == old(store) - {key}
      ensures Unobservable(old(store), store, now)
    {
      if key !in store { return None; }
      var entry := store[key];
      if entry.expiresAt.Some? && now > entry.expiresAt.value {
        store := store - {key};
        return None;
      }
      return Some(entry.value);
    }

    /** SET with an optional time to live, and NX when nx is set. */
    method Set(key: string, value: string, ttlMs: Option<int>, nx: bool, now: int) returns (ok: bool)
      modifies this`store
      ensures ok <==> !nx || Read(old(store), key, now) == None
      ensures ok ==> key in store
      ensures ok ==> store[key] == StoreEntry(value, if ttlMs.Some? then Some(now + ttlMs.value) else None)
      ensures ok ==> store - {key} == old(store) - {key}
      ensures !ok ==> Unobservable(old(store), store, now)
    {
      var expiresAt := if ttlMs.Some? then Some(now + ttlMs.value) else None;
      if nx {
        var existing := Get(key, now);
        if existing != None { return false; }
      }
      store := store[key := StoreEntry(value, expiresAt)];
      return true;
    }

    method Del(key: string) returns (removed: nat)
      modifies this`store
      ensures store == old(store) - {key}
      ensures removed == if key in old(store) then 1 else 0
    {
      removed := if key in store then 1 else 0;
      store := store - {key};
    }

    method RPush(key: string, values: seq<string>) returns (length: nat)
      requires Valid()
      modifies this`lists, lists.Values
      ensures fresh(lists.Values - old(lists.Values))
      ensures Valid() && Items(key) == old(Items(key)) + values && length == |Items(key)|
      ensures forall k :: k != key ==> Items(k) == old(Items(k))
    {
      var list: JsArray;
      if key in lists { list := lists[key]; } else { list := new JsArray([]); }
      list.items := list.items + values;
      lists := lists[key := list];
      length := |list.items|;
    }

    method LPop(key: string) returns (value: Option<string>)
      requires Valid()
      modifies this`lists, lists.Values
      ensures fresh(lists.Values - old(lists.Values))
      ensures Valid()
      ensures old(Items(key)) == [] ==> value == None && Items(key) == []
      ensures old(Items(key)) != [] ==> value == Some(old(Items(key))[0]) && Items(key) == old(Items(key))[1..]
      ensures forall k :: k != key ==> Items(k) == old(Items(k))
    {
      if key !in lists || lists[key].items == [] { return None; }
      var list := lists[key];
      value := Some(list.items[0]);
      list.items := list.items[1..];
      if list.items == [] { lists := lists - {key}; }
    }

    /** The tail of source becomes the head of destination, also when both name one array. */
    method RPopLPush(source: string, destination: string) returns (value: Option<string>)
      requires Valid()
      modifies this`lists, lists.Values
      ensures fresh(lists.Values - old(lists.Values))
      ensures Valid()
      ensures old(Items(source)) == [] ==> value == None && forall k :: Items(k) == old(Items(k))
      ensures old(Items(source)) != [] ==>
        var all := old(Items(source));
        var rest, last := all[..|all| - 1], all[|all| - 1];
        && value == Some(last)
        && (source != destination ==> Items(source) == rest && Items(destination) == [last] + old(Items(destination)))
        && (source == destination ==> Items(source) == [last] + rest)
      ensures forall k :: k != source && k != destination ==> Items(k) == old(Items(k))
    {
      if source !in lists || lists[source].items == [] { return None; }
      var src := lists[source];
      var last := src.items[|src.items| - 1];
      src.items := src.items[..|src.items| - 1];
      if src.items == [] { lists := lists - {source}; }
      var dest: JsArray;
      if destination in lists { dest := lists[destination]; } else { dest := new JsArray([]); }
      dest.items := [last] + dest.items;
      lists := lists[destination := dest];
      value := Some(last);
    }

    method LRem(key: string, count: int, value: string) returns (removed: nat)
      requires Valid()
      modifies this`lists, lists.Values
      ensures fresh(lists.Values - old(lists.Values))
      ensures Valid()
      ensures count == 0 ==> Items(key) == Without(old(Items(key)), value) && removed == Count(old(Items(key)), value)
      ensures count > 0 ==> Items(key) == RemoveFirst(old(Items(key)), count, value)
      ensures count < 0 ==> Items(key) == RemoveLast(old(Items(key)), -count, value)
      ensures count != 0 ==> removed == Min(if count > 0 then count else -count, Count(old(Items(key)), value))
      ensures forall k :: k != key ==> Items(k) == old(Items(k))
    {
      if key !in lists { return 0; }
      var list := lists[key];
      if count == 0 {
        removed := RemoveAll(list, value);
      } else {
        removed := RemoveSome(list, count, value);
      }
      if list.items == [] { lists := lists - {key}; }
    }
  }
}
