/** Whole histories of cache operations under a non-decreasing clock: what a hit
    returns, what a miss means and which entry an eviction takes. */
module CacheHistory {
  import opened Dns
  import opened CacheSpec

  datatype Op =
    | DoPut(q: Msg, m: Msg, wireLength: nat)
    | DoGet(q: Msg)
    | DoPeek(q: Msg)
    | DoInvalidate(name: Name, qtype: nat, below: bool)
    | DoFlush
    | DoExpire
    | DoSetUpstreamTtl(ttl: U32)

  datatype Event = Event(now: int, op: Op)

  type History = seq<Event>

  /** The forwarder gives every reply the question it was asked. */
  predicate WellFormed(h: History) {
    forall i :: 0 <= i < |h| && h[i].op.DoPut? ==> h[i].op.m.questions == h[i].op.q.questions
  }

  predicate Timely(h: History) {
    forall i, j :: 0 <= i < j < |h| ==> h[i].now <= h[j].now
  }

  function Step(s: State, e: Event): State {
    match e.op
    case DoPut(q, m, wireLength) => Put(s, q, m, wireLength, e.now)
    case DoGet(q) => Get(s, q, e.now).0
    case DoPeek(_) => s
    case DoInvalidate(name, qtype, below) => Invalidate(s, name, qtype, below)
    case DoFlush => Flush(s)
    case DoExpire => Expire(s, e.now)
    case DoSetUpstreamTtl(ttl) => SetUpstreamTtl(s, ttl)
  }

  function After(max: nat, h: History): State {
    if h == [] then Empty(max) else Step(After(max, Init(h)), Last(h))
  }

  function Init(h: History): History requires h != [] { h[..|h| - 1] }
  function Last(h: History): Event requires h != [] { h[|h| - 1] }

  /** In every history the cache is bounded, holds one entry per key and each entry
      lives as long as its message says. */
  lemma {:induction false} AlwaysValid(max: nat, h: History)
    ensures Valid(After(max, h)) && After(max, h).max == max
  {
    if h != [] {
      AlwaysValid(max, Init(h));
      var s, e := After(max, Init(h)), Last(h);
      match e.op {
        case DoPut(q, m, wireLength) => PutKeepsValid(s, q, m, wireLength, e.now);
        case DoGet(q) => GetKeepsValid(s, q, e.now);
        case DoInvalidate(name, qtype, below) => FilterKeepsValid(Uncovered(name, qtype, below), s);
        case DoExpire => FilterKeepsValid(LiveAt(e.now), s);
        case _ =>
      }
    }
  }

  // ---------- the reference: a map from keys to their last store ----------

  predicate Stores(max: nat, e: Event, k: Key) {
    e.op.DoPut? && Storable(max, e.op.q, e.op.m, e.op.wireLength) && KeyOf(e.op.q) == Some(k)
  }

  predicate Clears(s: State, ev: Event, e: Entry) {
    match ev.op
    case DoInvalidate(name, qtype, below) => Covers(name, qtype, below, e.message)
    case DoFlush => true
    case DoSetUpstreamTtl(ttl) => s.upstreamTtl != ttl
    case _ => false
  }

  /** The position of the last store under `k` that nothing has cleared since. */
  function LastStore(max: nat, h: History, k: Key): (i: Option<nat>)
    ensures i.Some? ==> i.value < |h| && Stores(max, h[i.value], k)
  {
    if h == [] then None
    else if Stores(max, Last(h), k) then Some(|h| - 1)
    else
      var i := LastStore(max, Init(h), k);
      if i.Some? && Clears(After(max, Init(h)), Last(h), StoredBy(h[i.value])) then None else i
  }

  function StoredBy(e: Event): Entry
    requires e.op.DoPut? && KeyOf(e.op.q).Some?
  {
    EntryFor(e.op.q, e.op.m, e.now)
  }

  /** Every entry is what the last store under its key put there. */
  lemma {:induction false} EntriesAreLastStores(max: nat, h: History, e: Entry)
    requires e in After(max, h).entries
    ensures LastStore(max, h, e.key).Some? && e == StoredBy(h[LastStore(max, h, e.key).value])
  {
    assert h != [];
    var s, ev := After(max, Init(h)), Last(h);
    MaxIsFixed(max, Init(h));
    if Stores(max, ev, e.key) {
      NewEntryIsStored(s, ev, e);
    } else {
      OldEntryStays(s, ev, e);
      EntriesAreLastStores(max, Init(h), e);
    }
  }

  /** As long as replies have a question, or the question they answer, so have all
      entries. */
  lemma AlwaysAnswering(max: nat, h: History)
    ensures (forall i :: 0 <= i < |h| && h[i].op.DoPut? ==> h[i].op.m.questions != []) ==> Questioned(After(max, h))
    ensures WellFormed(h) ==> Answering(After(max, h))
  {
    forall e | e in After(max, h).entries
      ensures exists i :: 0 <= i < |h| && h[i].op.DoPut? && KeyOf(h[i].op.q).Some? && e == StoredBy(h[i])
    {
      EntriesAreLastStores(max, h, e);
    }
  }

  lemma {:induction false} MaxIsFixed(max: nat, h: History)
    ensures After(max, h).max == max
  {
    if h != [] {
      MaxIsFixed(max, Init(h));
    }
  }

  lemma NewEntryIsStored(s: State, ev: Event, e: Entry)
    requires Stores(s.max, ev, e.key) && e in Step(s, ev).entries
    ensures e == StoredBy(ev)
  {
    var rest := Without(s.entries, e.key);
    FilterMembers(OtherKey(e.key), s.entries);
    assert forall x :: x in Room(rest, s.max) ==> x in rest;
  }

  lemma OldEntryStays(s: State, ev: Event, e: Entry)
    requires !Stores(s.max, ev, e.key) && e in Step(s, ev).entries
    ensures e in s.entries && !Clears(s, ev, e)
  {
    match ev.op {
      case DoPut(q, m, wireLength) =>
        if Storable(s.max, q, m, wireLength) {
          var rest := Without(s.entries, KeyOf(q).value);
          FilterMembers(OtherKey(KeyOf(q).value), s.entries);
          assert e in Room(rest, s.max);
          assert e in rest;
        }
      case DoGet(q) =>
        if FindFor(s.entries, q).Some? {
          FindMember(s.entries, KeyOf(q).value);
          FilterMembers(OtherKey(KeyOf(q).value), s.entries);
        }
      case DoInvalidate(name, qtype, below) => FilterMembers(Uncovered(name, qtype, below), s.entries);
      case DoExpire => FilterMembers(LiveAt(ev.now), s.entries);
      case _ =>
    }
  }

  /** A hit is the aged form of the last message stored under the key and not since
      cleared, and it is served only before that message expires. It was stored for a query
      that asked for the same. */
  lemma {:induction false} HitIsLastStore(max: nat, h: History, q: Msg, now: int)
    requires Get(After(max, h), q, now).1.Some?
    ensures Plain(q) && KeyOf(q).Some? && LastStore(max, h, KeyOf(q).value).Some?
    ensures var ev := h[LastStore(max, h, KeyOf(q).value).value];
            && SameRequest(ev.op.q, q) && Live(StoredBy(ev), now)
            && Older(StoredBy(ev).message, Get(After(max, h), q, now).1.value, q, WholeSeconds(now - ev.now))
  {
    var s := After(max, h);
    HitIsFound(s, q, now);
    EntriesAreLastStores(max, h, FindFor(s.entries, q).value);
    var ev := h[LastStore(max, h, KeyOf(q).value).value];
    HasKey(q);
    SameKeyMeans(ev.op.q, q);
    AgedIsOlder(StoredBy(ev), q, now);
  }

  /** A hit is the aged form of the entry under the key. */
  lemma {:induction false} HitIsFound(s: State, q: Msg, now: int)
    requires Get(s, q, now).1.Some?
    ensures KeyOf(q).Some? && FindFor(s.entries, q).Some?
    ensures var e := FindFor(s.entries, q).value;
            e in s.entries && e.key == KeyOf(q).value && Live(e, now) && Get(s, q, now).1.value == Aged(e, q, now)
  {
    FindMember(s.entries, KeyOf(q).value);
  }

  // ---------- recency ----------

  /** The key an event stores or hits, if any. */
  function TouchedKey(s: State, e: Event): Option<Key> {
    match e.op
    case DoPut(q, m, wireLength) => if Storable(s.max, q, m, wireLength) then KeyOf(q) else None
    case DoGet(q) => if Get(s, q, e.now).1.Some? then KeyOf(q) else None
    case _ => None
  }

  /** The keys stored or hit after the last store or hit of `k`. */
  function TouchedSince(max: nat, h: History, k: Key): set<Key> {
    if h == [] then {}
    else
      var t := TouchedKey(After(max, Init(h)), Last(h));
      if t == Some(k) then {}
      else TouchedSince(max, Init(h), k) + (if t.Some? then {t.value} else {})
  }

  function Ahead(es: seq<Entry>, k: Key): set<Key> {
    if es == [] || es[0].key == k then {} else {es[0].key} + Ahead(es[1..], k)
  }

  predicate Present(es: seq<Entry>, k: Key) { exists e :: e in es && e.key == k }

  lemma {:induction false} AheadAfterFilter(p: Entry -> bool, es: seq<Entry>, k: Key)
    requires Distinct(es) && Present(Filter(p, es), k)
    ensures Present(es, k) && Ahead(Filter(p, es), k) <= Ahead(es, k)
  {
    FilterMembers(p, es);
    var e :| e in Filter(p, es) && e.key == k;
    if es[0].key == k {
      var i :| 0 <= i < |es| && es[i] == e;
      assert i == 0 && p(es[0]);
    } else {
      FilterMembers(p, es[1..]);
      assert e in es[1..];
      AheadAfterFilter(p, es[1..], k);
    }
  }

  /** Filtering keeps what stands ahead, as far as it stays. */
  lemma {:induction false} AheadKept(p: Entry -> bool, es: seq<Entry>, k: Key, x: Key)
    requires x in Ahead(es, k) && Distinct(es) && Present(Filter(p, es), x)
    ensures x in Ahead(Filter(p, es), k)
  {
    if es[0].key == x {
      FilterMembers(p, es);
      var e :| e in Filter(p, es) && e.key == x;
      var i :| 0 <= i < |es| && es[i] == e;
      assert i == 0 && p(es[0]);
    } else {
      var e :| e in Filter(p, es) && e.key == x;
      assert e in Filter(p, es[1..]);
      AheadKept(p, es[1..], k, x);
    }
  }

  lemma {:induction false} AheadAfterRoom(es: seq<Entry>, max: nat, k: Key)
    requires Present(Room(es, max), k)
    ensures Ahead(Room(es, max), k) == Ahead(es, k)
  {
    if es[0].key != k && |es| >= max {
      var rest := es[1..];
      assert Room(es, max)[1..] == rest[..|rest| - 1];
      var e :| e in Room(es, max) && e.key == k;
      assert e in Room(es, max)[1..];
      assert Room(rest, 0) == rest[..|rest| - 1];
      AheadAfterRoom(rest, 0, k);
    }
  }

  function KeysOf(es: seq<Entry>): set<Key> {
    if es == [] then {} else {es[0].key} + KeysOf(es[1..])
  }

  lemma {:induction false} KeysOfMembers(es: seq<Entry>)
    ensures forall k :: k in KeysOf(es) <==> Present(es, k)
  {
    if es != [] {
      KeysOfMembers(es[1..]);
      assert forall e :: e in es <==> e == es[0] || e in es[1..];
    }
  }

  lemma {:induction false} KeysOfSize(es: seq<Entry>)
    requires Distinct(es)
    ensures |KeysOf(es)| == |es|
  {
    if es != [] {
      KeysOfSize(es[1..]);
      KeysOfMembers(es[1..]);
    }
  }

  lemma {:induction false} AheadOfLast(es: seq<Entry>)
    requires Distinct(es) && es != []
    ensures Ahead(es, es[|es| - 1].key) == KeysOf(es[..|es| - 1])
  {
    if |es| > 1 {
      AheadOfLast(es[1..]);
      assert es[..|es| - 1][1..] == es[1..][..|es| - 2];
    }
  }

  lemma {:induction false} AheadWasTouched(max: nat, h: History, k: Key)
    requires Present(After(max, h).entries, k)
    ensures Ahead(After(max, h).entries, k) <= TouchedSince(max, h, k)
  {
    assert h != [];
    var s, ev := After(max, Init(h)), Last(h);
    AlwaysValid(max, Init(h));
    if TouchedKey(s, ev) == Some(k) {
      TouchedIsFirst(s, ev);
    } else {
      StepKeepsOrder(s, ev, k);
      AheadWasTouched(max, Init(h), k);
    }
  }

  lemma {:induction false} TouchedIsAhead(max: nat, h: History, k: Key, x: Key)
    requires Present(After(max, h).entries, k) && Present(After(max, h).entries, x)
    requires x in TouchedSince(max, h, k)
    ensures x in Ahead(After(max, h).entries, k)
  {
    var s, ev := After(max, Init(h)), Last(h);
    AlwaysValid(max, Init(h));
    StepKeepsOrder(s, ev, k);
    if TouchedKey(s, ev) == Some(x) {
      TouchedIsFirst(s, ev);
    } else {
      StepKeepsOrder(s, ev, x);
      TouchedIsAhead(max, Init(h), k, x);
      StepKeepsAhead(s, ev, k, x);
    }
  }

  lemma {:induction false} AheadIsPresent(es: seq<Entry>, k: Key)
    ensures Ahead(es, k) <= KeysOf(es)
  {
    if es != [] && es[0].key != k {
      AheadIsPresent(es[1..], k);
    }
  }

  /** The list order is the order of last use: what stands ahead of an entry is exactly
      what was stored or hit after it and is still there. */
  lemma OrderIsRecency(max: nat, h: History, k: Key)
    requires Present(After(max, h).entries, k)
    ensures Ahead(After(max, h).entries, k) == TouchedSince(max, h, k) * KeysOf(After(max, h).entries)
  {
    var es := After(max, h).entries;
    AheadWasTouched(max, h, k);
    AheadIsPresent(es, k);
    KeysOfMembers(es);
    forall x | x in TouchedSince(max, h, k) * KeysOf(es)
      ensures x in Ahead(es, k)
    {
      TouchedIsAhead(max, h, k, x);
    }
  }

  lemma TouchedIsFirst(s: State, ev: Event)
    requires TouchedKey(s, ev).Some?
    ensures Step(s, ev).entries != [] && Step(s, ev).entries[0].key == TouchedKey(s, ev).value
  {
    if ev.op.DoGet? {
      FindMember(s.entries, TouchedKey(s, ev).value);
    }
  }

  /** What a store leaves behind the entry it puts in front. */
  lemma {:induction false} PutKeepsOrder(s: State, q: Msg, m: Msg, wireLength: nat, now: int, k: Key)
    requires Valid(s) && Storable(s.max, q, m, wireLength) && KeyOf(q) != Some(k) && Present(Put(s, q, m, wireLength, now).entries, k)
    ensures var rest := Without(s.entries, KeyOf(q).value);
            && Present(s.entries, k) && Present(rest, k) && Present(Room(rest, s.max), k)
            && Ahead(Put(s, q, m, wireLength, now).entries, k) == {KeyOf(q).value} + Ahead(rest, k)
            && Ahead(rest, k) <= Ahead(s.entries, k)
  {
    var es := Put(s, q, m, wireLength, now).entries;
    var rest := Without(s.entries, KeyOf(q).value);
    assert es[1..] == Room(rest, s.max);
    var x :| x in es && x.key == k;
    assert x in Room(rest, s.max) && x in rest;
    AheadAfterRoom(rest, s.max, k);
    AheadAfterFilter(OtherKey(KeyOf(q).value), s.entries, k);
  }

  /** What looking up does: a hit comes to the front, a dead entry goes. */
  lemma {:induction false} GetKeepsOrder(s: State, q: Msg, now: int, k: Key)
    requires Valid(s) && FindFor(s.entries, q).Some? && Present(Get(s, q, now).0.entries, k)
    requires Get(s, q, now).1.Some? ==> KeyOf(q) != Some(k)
    ensures var rest := Without(s.entries, KeyOf(q).value);
            && Present(s.entries, k) && Present(rest, k) && Ahead(rest, k) <= Ahead(s.entries, k)
            && Ahead(Get(s, q, now).0.entries, k) == (if Get(s, q, now).1.Some? then {KeyOf(q).value} else {}) + Ahead(rest, k)
  {
    FindMember(s.entries, KeyOf(q).value);
    var es, rest := Get(s, q, now).0.entries, Without(s.entries, KeyOf(q).value);
    var x :| x in es && x.key == k;
    assert Live(FindFor(s.entries, q).value, now) ==> es == [FindFor(s.entries, q).value] + rest && es[1..] == rest;
    assert x in rest;
    AheadAfterFilter(OtherKey(KeyOf(q).value), s.entries, k);
  }

  lemma {:induction false} StepKeepsOrder(s: State, ev: Event, k: Key)
    requires Valid(s) && Present(Step(s, ev).entries, k)
    requires TouchedKey(s, ev) != Some(k)
    ensures Present(s.entries, k)
    ensures Ahead(Step(s, ev).entries, k)
         <= Ahead(s.entries, k) + (if TouchedKey(s, ev).Some? then {TouchedKey(s, ev).value} else {})
  {
    match ev.op {
      case DoPut(q, m, wireLength) =>
        if Storable(s.max, q, m, wireLength) {
          PutKeepsOrder(s, q, m, wireLength, ev.now, k);
        }
      case DoGet(q) =>
        if FindFor(s.entries, q).Some? {
          GetKeepsOrder(s, q, ev.now, k);
        }
      case DoInvalidate(name, qtype, below) => AheadAfterFilter(Uncovered(name, qtype, below), s.entries, k);
      case DoExpire => AheadAfterFilter(LiveAt(ev.now), s.entries, k);
      case _ =>
    }
  }

  lemma {:induction false} StepKeepsAhead(s: State, ev: Event, k: Key, x: Key)
    requires Valid(s) && x in Ahead(s.entries, k) && Present(Step(s, ev).entries, k) && Present(Step(s, ev).entries, x)
    requires TouchedKey(s, ev) != Some(k) && TouchedKey(s, ev) != Some(x)
    ensures x in Ahead(Step(s, ev).entries, k)
  {
    match ev.op {
      case DoPut(q, m, wireLength) =>
        if Storable(s.max, q, m, wireLength) {
          PutKeepsOrder(s, q, m, wireLength, ev.now, k);
          PutKeepsOrder(s, q, m, wireLength, ev.now, x);
          AheadKept(OtherKey(KeyOf(q).value), s.entries, k, x);
        }
      case DoGet(q) =>
        if FindFor(s.entries, q).Some? {
          GetKeepsOrder(s, q, ev.now, k);
          GetKeepsOrder(s, q, ev.now, x);
          AheadKept(OtherKey(KeyOf(q).value), s.entries, k, x);
        }
      case DoInvalidate(name, qtype, below) => AheadKept(Uncovered(name, qtype, below), s.entries, k, x);
      case DoExpire => AheadKept(LiveAt(ev.now), s.entries, k, x);
      case _ =>
    }
  }

  /** The entry a store pushes out is the last of those with another key. */
  lemma {:induction false} PushedOut(s: State, ev: Event, k: Key)
    requires Valid(s) && ev.op.DoPut? && !Stores(s.max, ev, k) && Present(s.entries, k)
    ensures Present(Step(s, ev).entries, k)
         || (&& Storable(s.max, ev.op.q, ev.op.m, ev.op.wireLength)
             && var rest := Without(s.entries, KeyOf(ev.op.q).value);
                |rest| >= s.max && rest != [] && rest[|rest| - 1].key == k && Present(rest, k))
  {
    if Storable(s.max, ev.op.q, ev.op.m, ev.op.wireLength) {
      var rest := Without(s.entries, KeyOf(ev.op.q).value);
      FilterMembers(OtherKey(KeyOf(ev.op.q).value), s.entries);
      var e :| e in s.entries && e.key == k;
      assert e in rest;
      RoomKeeps(rest, s.max, e);
      assert Step(s, ev).entries[1..] == Room(rest, s.max);
    }
  }

  /** Making room takes the last entry if any. */
  lemma RoomKeeps(es: seq<Entry>, max: nat, e: Entry)
    requires e in es
    ensures e in Room(es, max) || (|es| >= max && es[|es| - 1] == e)
  {
    assert es == es[..|es| - 1] + [es[|es| - 1]];
  }

  lemma PushedOutIsLast(s: State, ev: Event, k: Key)
    requires Valid(s) && ev.op.DoPut? && !Stores(s.max, ev, k)
    requires Present(s.entries, k) && !Present(Step(s, ev).entries, k)
    ensures Storable(s.max, ev.op.q, ev.op.m, ev.op.wireLength)
    ensures KeysOf(s.entries) - {k, KeyOf(ev.op.q).value} <= Ahead(s.entries, k)
    ensures |KeysOf(s.entries) - {k, KeyOf(ev.op.q).value}| >= s.max - 1
  {
    PushedOut(s, ev, k);
    var stored := KeyOf(ev.op.q).value;
    var rest := Without(s.entries, stored);
    FilterKeepsDistinct(OtherKey(stored), s.entries);
    AheadOfLast(rest);
    AheadAfterFilter(OtherKey(stored), s.entries, k);
    FrontKeys(s.entries, rest, rest[..|rest| - 1], k, stored);
    KeysOfSize(rest[..|rest| - 1]);
  }

  /** Everything else in the cache was used after the entry that is pushed out. */
  lemma PushedOutIsOldest(max: nat, h: History, ev: Event, k: Key)
    requires ev.op.DoPut? && !Stores(max, ev, k)
    requires Present(After(max, h).entries, k) && !Present(Step(After(max, h), ev).entries, k)
    ensures Storable(max, ev.op.q, ev.op.m, ev.op.wireLength)
    ensures KeysOf(After(max, h).entries) - {k, KeyOf(ev.op.q).value} <= TouchedSince(max, h, k)
    ensures |KeysOf(After(max, h).entries) - {k, KeyOf(ev.op.q).value}| >= max - 1
  {
    AlwaysValid(max, h);
    PushedOutIsLast(After(max, h), ev, k);
    OrderIsRecency(max, h, k);
  }

  lemma FrontKeys(es: seq<Entry>, rest: seq<Entry>, front: seq<Entry>, k: Key, stored: Key)
    requires rest == Without(es, stored) && Distinct(rest) && rest != []
    requires front == rest[..|rest| - 1] && rest[|rest| - 1].key == k
    ensures KeysOf(es) - {k, stored} == KeysOf(front)
  {
    FilterMembers(OtherKey(stored), es);
    KeysOfMembers(es);
    KeysOfMembers(front);
    forall x | x in KeysOf(es) - {k, stored}
      ensures x in KeysOf(front)
    {
      var e :| e in es && e.key == x;
      assert e in rest && e in front;
    }
    forall x | x in KeysOf(front)
      ensures x in KeysOf(es) - {k, stored}
    {
      var e :| e in front && e.key == x;
      assert e in rest && e in es;
    }
  }

  /** An eviction takes the entry whose last store or hit is the oldest: every other
      entry of the full cache was stored or hit after it. */
  lemma EvictionTakesOldest(max: nat, h: History, ev: Event, k: Key, other: Key)
    requires ev.op.DoPut? && !Stores(max, ev, k)
    requires Present(After(max, h).entries, k) && !Present(After(max, h + [ev]).entries, k)
    requires Present(After(max, h).entries, other) && other != k && KeyOf(ev.op.q) != Some(other)
    ensures other in TouchedSince(max, h, k)
  {
    assert Init(h + [ev]) == h && Last(h + [ev]) == ev;
    PushedOutIsOldest(max, h, ev, k);
    KeysOfMembers(After(max, h).entries);
  }

  /** A live answer that nothing cleared is missing only because at least `max` other
      keys were stored or hit since its own last store or hit. */
  lemma {:induction false} LostOnlyWhenFull(max: nat, h: History, k: Key, now: int)
    requires Timely(h) && (h != [] ==> Last(h).now <= now)
    requires LastStore(max, h, k).Some? && Live(StoredBy(h[LastStore(max, h, k).value]), now)
    ensures Present(After(max, h).entries, k) || |TouchedSince(max, h, k) - {k}| >= max
  {
    var s, ev := After(max, Init(h)), Last(h);
    MaxIsFixed(max, Init(h));
    if Stores(max, ev, k) {
      assert Step(s, ev).entries[0] == StoredBy(ev);
    } else if Present(s.entries, k) {
      LossByEviction(max, h, k, now);
    } else {
      LostOnlyWhenFull(max, Init(h), k, now);
      AbsentIsNotTouched(s, ev, k);
      SubsetSize(TouchedSince(max, Init(h), k) - {k}, TouchedSince(max, h, k) - {k});
    }
  }

  lemma AbsentIsNotTouched(s: State, ev: Event, k: Key)
    requires !Stores(s.max, ev, k) && !Present(s.entries, k)
    ensures TouchedKey(s, ev) != Some(k)
  {
    if ev.op.DoGet? && KeyOf(ev.op.q) == Some(k) {
      FindMember(s.entries, k);
    }
  }

  lemma SubsetSize<T>(a: set<T>, b: set<T>)
    requires a <= b
    ensures |a| <= |b|
  {
    assert b == a + (b - a);
  }

  lemma LossByEviction(max: nat, h: History, k: Key, now: int)
    requires h != [] && Timely(h) && Last(h).now <= now
    requires LastStore(max, h, k).Some? && Live(StoredBy(h[LastStore(max, h, k).value]), now)
    requires !Stores(max, Last(h), k) && Present(After(max, Init(h)).entries, k)
    ensures Present(After(max, h).entries, k) || |TouchedSince(max, h, k) - {k}| >= max
  {
    var s, ev := After(max, Init(h)), Last(h);
    AlwaysValid(max, Init(h));
    var e :| e in s.entries && e.key == k;
    EntriesAreLastStores(max, Init(h), e);
    LiveEntryLeavesByEviction(s, ev, e);
    if !Present(After(max, h).entries, k) {
      PushedOutIsOldest(max, Init(h), ev, k);
      var stored := KeyOf(ev.op.q).value;
      var others := KeysOf(s.entries) - {k, stored};
      assert TouchedKey(s, ev) == Some(stored);
      SubsetSize(others + {stored}, TouchedSince(max, h, k) - {k});
    }
  }

  lemma LiveEntryLeavesByEviction(s: State, ev: Event, e: Entry)
    requires Valid(s) && e in s.entries && Live(e, ev.now)
    requires !Clears(s, ev, e)
    ensures ev.op.DoPut? || Present(Step(s, ev).entries, e.key)
  {
    match ev.op {
      case DoGet(q) =>
        var found := FindFor(s.entries, q);
        if found.Some? {
          FindMember(s.entries, KeyOf(q).value);
          FilterMembers(OtherKey(found.value.key), s.entries);
          FindUnique(s.entries, e);
          assert e in Step(s, ev).entries;
        }
      case DoInvalidate(name, qtype, below) => FilterMembers(Uncovered(name, qtype, below), s.entries);
      case DoExpire => FilterMembers(LiveAt(ev.now), s.entries);
      case _ =>
    }
  }

  /** What a miss means: the question has no key, nothing was stored under it or it
      was cleared, what was stored has expired, or the cache overflowed since. */
  lemma MissMeans(max: nat, h: History, q: Msg, now: int)
    requires Timely(h) && (h != [] ==> Last(h).now <= now)
    requires Get(After(max, h), q, now).1.None?
    ensures KeyOf(q).None?
         || LastStore(max, h, KeyOf(q).value).None?
         || !Live(StoredBy(h[LastStore(max, h, KeyOf(q).value).value]), now)
         || |TouchedSince(max, h, KeyOf(q).value) - {KeyOf(q).value}| >= max
  {
    if KeyOf(q).Some? && LastStore(max, h, KeyOf(q).value).Some? {
      var k := KeyOf(q).value;
      FindMember(After(max, h).entries, k);
      if Present(After(max, h).entries, k) {
        EntriesAreLastStores(max, h, Find(After(max, h).entries, k).value);
      } else if Live(StoredBy(h[LastStore(max, h, k).value]), now) {
        LostOnlyWhenFull(max, h, k, now);
      }
    }
  }

  // ---------- stores and counters ----------

  /** What may be kept: an answer to a plain query that is whole, not too long and says
      how long. */
  ghost predicate Keepable(max: nat, q: Msg, m: Msg, wireLength: nat) {
    Plain(q) && max > 0 && !m.truncated && wireLength <= 16384 && Lifetime(m) > 0
  }

  /** Storing has an effect exactly for what may be kept; then the next lookup for the same
      request finds it until its lifetime is over. */
  lemma StoreIsFound(s: State, q: Msg, m: Msg, wireLength: nat, now: int, p: Msg, later: int)
    ensures !Keepable(s.max, q, m, wireLength) ==> Put(s, q, m, wireLength, now) == s
    ensures Keepable(s.max, q, m, wireLength) && SameRequest(p, q) && Plain(p) ==>
              var hit := Get(Put(s, q, m, wireLength, now), p, later).1;
              && (hit.Some? <==> later < now + Lifetime(m) * 1_000_000_000)
              && (hit.Some? ==> Older(NormalizeNegative(m), hit.value, p, WholeSeconds(later - now)))
  {
    HasKey(q);
    if Keepable(s.max, q, m, wireLength) && SameRequest(p, q) && Plain(p) {
      HasKey(p);
      SameKeyMeans(p, q);
      var after := Put(s, q, m, wireLength, now);
      assert after.entries[0] == EntryFor(q, m, now) && Find(after.entries, KeyOf(p).value) == Some(after.entries[0]);
      AgedIsOlder(after.entries[0], p, later);
    }
  }

  /** How many lookups of a history were answered, or were not. */
  function Lookups(max: nat, h: History, answered: bool): nat {
    if h == [] then 0
    else
      var ev := Last(h);
      Lookups(max, Init(h), answered)
      + (if ev.op.DoGet? && Get(After(max, Init(h)), ev.op.q, ev.now).1.Some? == answered then 1 else 0)
  }

  /** The counters count them; peeking does not. */
  lemma {:induction false} CountersCount(max: nat, h: History)
    ensures After(max, h).hits == Lookups(max, h, true) && After(max, h).misses == Lookups(max, h, false)
  {
    if h != [] {
      CountersCount(max, Init(h));
    }
  }

  /** What an invalidation leaves: whatever has another type than asked for, or another
      name; with the names below, only what is neither the name nor below it. */
  lemma InvalidationLeaves(s: State, name: Name, qtype: nat, below: bool, e: Entry)
    requires e in s.entries && |e.message.questions| == 1
    ensures var question := e.message.questions[0];
            e in Invalidate(s, name, qtype, below).entries <==>
            || (qtype != 0 && question.qtype != qtype)
            || (Lower(question.name) != Lower(name) && !(below && name != [] && AtOrBelow(Lower(question.name), Lower(name))))
  {
    FilterMembers(Uncovered(name, qtype, below), s.entries);
  }
}
