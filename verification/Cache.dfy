/** The bounded cache with its two structures, a map for lookup and a list for recency,
    updated step by step and proved equal to the value model of CacheSpec. */
module CacheImpl {
  import opened Dns
  import opened CacheSpec

  // ---------- lifetime computations ----------

  method LeastOver(rrs: seq<RR>, bound: U32, skipOpt: bool) returns (ttl: U32)
    ensures ttl == LeastTtl(rrs, bound, skipOpt)
  {
    ttl := bound;
    for i := 0 to |rrs|
      invariant ttl == LeastTtl(rrs[..i], bound, skipOpt)
    {
      assert rrs[..i + 1][..i] == rrs[..i];
      if (!skipOpt || rrs[i].Type() != TYPE_OPT) && rrs[i].ttl < ttl {
        ttl := rrs[i].ttl;
      }
    }
    assert rrs[..|rrs|] == rrs;
  }

  lemma {:induction false} LeastTtlConcat(a: seq<RR>, b: seq<RR>, bound: U32, skipOpt: bool)
    ensures LeastTtl(a + b, bound, skipOpt) == LeastTtl(b, LeastTtl(a, bound, skipOpt), skipOpt)
  {
    if b == [] {
      assert a + b == a;
    } else {
      var n := |b| - 1;
      LeastTtlConcat(a, b[..n], bound, skipOpt);
      assert (a + b)[..|a + b| - 1] == a + b[..n];
    }
  }

  /** The lifetime of a message and whether it is a denial. */
  method CacheTtl(m: Msg) returns (ttl: U32, negative: bool)
    ensures ttl == Lifetime(m) && negative == Negative(m)
  {
    var soa: Option<RR> := None;
    var i := 0;
    while i < |m.ns| && soa.None?
      invariant 0 <= i <= |m.ns|
      invariant soa.Some? ==> soa.value.data.Authority?
      invariant FirstSoa(m.ns) == if soa.Some? then soa else FirstSoa(m.ns[i..])
      decreases |m.ns| - i, soa.None?
    {
      if m.ns[i].data.Authority? {
        soa := Some(m.ns[i]);
      } else {
        i := i + 1;
      }
    }
    var aliasOnly := true;
    var j := 0;
    while j < |m.answer| && aliasOnly
      invariant 0 <= j <= |m.answer|
      invariant aliasOnly <==> AliasOnly(m.answer[..j])
      invariant AliasOnly(m.answer) ==> aliasOnly
    {
      assert m.answer[j] in m.answer && m.answer[..j + 1] == m.answer[..j] + [m.answer[j]];
      if m.answer[j].Type() != TYPE_CNAME && m.answer[j].Type() != TYPE_RRSIG {
        aliasOnly := false;
        assert m.answer[j] in m.answer[..j + 1];
      }
      j := j + 1;
    }
    assert aliasOnly ==> m.answer[..j] == m.answer;
    negative := soa.Some? && (m.rcode == NAME_ERROR || (m.rcode == SUCCESS && (|m.answer| == 0 || aliasOnly)));
    if negative {
      ttl := LeastOver(m.answer, Min(Min(soa.value.ttl, soa.value.data.minTtl), MAX_NEGATIVE_TTL), false);
    } else if m.rcode == SUCCESS && |m.answer| > 0 {
      ttl := LeastOver(m.answer, MAX_POSITIVE_TTL, true);
      ttl := LeastOver(m.ns, ttl, true);
      ttl := LeastOver(m.extra, ttl, true);
      LeastTtlConcat(m.answer, m.ns, MAX_POSITIVE_TTL, true);
      LeastTtlConcat(m.answer + m.ns, m.extra, MAX_POSITIVE_TTL, true);
    } else {
      ttl := 0;
    }
  }

  method ClampNegativeSoa(m: Msg, ttl: U32) returns (out: Msg)
    ensures out == ClampSoa(m, ttl)
  {
    var ns := [];
    for i := 0 to |m.ns|
      invariant |ns| == i && forall k :: 0 <= k < i ==> ns[k] == ClampRR(m.ns[k], ttl)
    {
      ns := ns + [if m.ns[i].data.Authority? then m.ns[i].(ttl := ttl) else m.ns[i]];
    }
    out := m.(ns := ns);
    assert out.ns == ClampSoa(m, ttl).ns;
  }

  method NormalizeNegativeTtl(m: Msg) returns (out: Msg)
    ensures out == NormalizeNegative(m)
  {
    var ttl, negative := CacheTtl(m);
    out := m;
    if negative {
      out := ClampNegativeSoa(m, ttl);
    }
  }

  method AgeSection(rrs: seq<RR>, age: U32) returns (out: seq<RR>)
    ensures out == AgeAll(rrs, age)
  {
    out := [];
    for i := 0 to |rrs|
      invariant |out| == i && forall k :: 0 <= k < i ==> out[k] == AgeRR(rrs[k], age)
    {
      if rrs[i].Type() != TYPE_OPT {
        out := out + [rrs[i].(ttl := (rrs[i].ttl - age) % 0x1_0000_0000)];
      } else {
        out := out + [rrs[i]];
      }
    }
  }

  method AgeMessage(e: Entry, q: Msg, now: int) returns (m: Msg)
    ensures m == Aged(e, q, now)
  {
    var age := WholeSeconds(now - e.stored) % 0x1_0000_0000;
    var answer := AgeSection(e.message.answer, age);
    var ns := AgeSection(e.message.ns, age);
    var extra := AgeSection(e.message.extra, age);
    m := e.message.(id := q.id, questions := q.questions, answer := answer, ns := ns, extra := extra);
  }

  // ---------- removing single elements ----------

  lemma RemoveAt(es: seq<Entry>, i: nat)
    requires i < |es| && Distinct(es)
    ensures Without(es, es[i].key) == es[..i] + es[i + 1..]
  {
    var p := OtherKey(es[i].key);
    assert es == es[..i] + ([es[i]] + es[i + 1..]);
    FilterConcat(p, es[..i], [es[i]] + es[i + 1..]);
    FilterConcat(p, [es[i]], es[i + 1..]);
    FilterAll(p, es[..i]);
    FilterAll(p, es[i + 1..]);
  }

  lemma RemoveShortens(es: seq<Entry>, e: Entry)
    requires Distinct(es) && e in es
    ensures |Without(es, e.key)| == |es| - 1
  {
    var i :| 0 <= i < |es| && es[i] == e;
    RemoveAt(es, i);
  }

  /** The map that indexes a list of entries by key. */
  ghost function MapOf(es: seq<Entry>): map<Key, Entry> {
    if es == [] then map[] else MapOf(es[1..])[es[0].key := es[0]]
  }

  lemma {:induction false} MapOfFind(es: seq<Entry>, k: Key)
    ensures Find(es, k) == if k in MapOf(es) then Some(MapOf(es)[k]) else None
  {
    if es != [] {
      MapOfFind(es[1..], k);
    }
  }

  lemma {:induction false} MapOfWithout(es: seq<Entry>, k: Key)
    ensures MapOf(Without(es, k)) == MapOf(es) - {k}
  {
    if es != [] {
      MapOfWithout(es[1..], k);
    }
  }

  lemma MapOfMovedToFront(es: seq<Entry>, e: Entry)
    requires Distinct(es) && e in es
    ensures MapOf([e] + Without(es, e.key)) == MapOf(es)
  {
    MapOfWithout(es, e.key);
    FindUnique(es, e);
    MapOfFind(es, e.key);
    assert ([e] + Without(es, e.key))[1..] == Without(es, e.key);
  }

  lemma {:induction false} MapOfSize(es: seq<Entry>)
    requires Distinct(es)
    ensures |MapOf(es)| == |es|
  {
    if es != [] {
      MapOfSize(es[1..]);
      MapOfFind(es[1..], es[0].key);
      FindMember(es[1..], es[0].key);
    }
  }

  lemma MoveToFrontKeepsValid(s: State, e: Entry)
    requires Valid(s) && e in s.entries
    ensures Valid(s.(entries := [e] + Without(s.entries, e.key)))
  {
    FilterKeepsValid(OtherKey(e.key), s);
    FilterMembers(OtherKey(e.key), s.entries);
    RemoveShortens(s.entries, e);
    var rest := Without(s.entries, e.key);
    assert forall j :: 0 <= j < |rest| ==> rest[j] in rest;
  }

  /** Entries whose keys still have to be looked at, or that pass. */
  ghost function Pending(todo: set<Key>, p: Entry -> bool): Entry -> bool {
    (e: Entry) => e.key in todo || p(e)
  }

  lemma {:induction false} FilterAgree(p: Entry -> bool, r: Entry -> bool, es: seq<Entry>)
    requires forall e :: e in es ==> p(e) == r(e)
    ensures Filter(p, es) == Filter(r, es)
  {
    if es != [] {
      assert es[0] in es;
      FilterAgree(p, r, es[1..]);
    }
  }

  lemma {:induction false} FilterTwice(p: Entry -> bool, q: Entry -> bool, r: Entry -> bool, es: seq<Entry>)
    requires forall e :: e in es ==> r(e) == (p(e) && q(e))
    ensures Filter(q, Filter(p, es)) == Filter(r, es)
  {
    if es != [] {
      assert es[0] in es;
      FilterTwice(p, q, r, es[1..]);
      if p(es[0]) {
        assert Filter(p, es)[1..] == Filter(p, es[1..]);
      }
    }
  }

  lemma {:induction false} MapOfKeys(es: seq<Entry>)
    ensures forall e :: e in es ==> e.key in MapOf(es)
  {
    if es != [] {
      MapOfKeys(es[1..]);
      assert es == [es[0]] + es[1..];
    }
  }

  lemma StartSweep(es: seq<Entry>, p: Entry -> bool)
    ensures Filter(Pending(MapOf(es).Keys, p), es) == es
  {
    MapOfKeys(es);
    FilterAll(Pending(MapOf(es).Keys, p), es);
  }

  /** One round of a sweep over the map: the visited entry goes unless it passes. */
  lemma SweepOne(es: seq<Entry>, todo: set<Key>, p: Entry -> bool, e: Entry)
    requires Distinct(es) && e in es && e.key in todo
    ensures Filter(Pending(todo - {e.key}, p), es)
         == if p(e) then Filter(Pending(todo, p), es) else Without(Filter(Pending(todo, p), es), e.key)
  {
    FindUnique(es, e);
    forall x | x in es && x.key == e.key
      ensures x == e
    {
      FindUnique(es, x);
    }
    if p(e) {
      FilterAgree(Pending(todo, p), Pending(todo - {e.key}, p), es);
    } else {
      FilterTwice(Pending(todo, p), OtherKey(e.key), Pending(todo - {e.key}, p), es);
    }
  }

  // ---------- the cache ----------

  class Cache {
    const max: nat
    var items: map<Key, Entry>
    var lru: seq<Entry>
    var hits: nat
    var misses: nat
    var upstreamTtl: U32

    /** The map and the list hold the same entries, one per key, at most `max`. */
    ghost predicate Consistent()
      reads this
    {
      items == MapOf(lru) && Valid(Contents())
    }

    ghost function Contents(): State
      reads this
    {
      State(max, lru, hits, misses, upstreamTtl)
    }

    constructor (max: int)
      ensures Consistent() && Contents() == Empty(if max < 0 then 0 else max)
    {
      this.max := if max < 0 then 0 else max;
      items := map[];
      lru := [];
      hits := 0;
      misses := 0;
      upstreamTtl := 0;
    }

    method Remove(e: Entry)
      requires Consistent() && e in lru
      modifies this`items, this`lru
      ensures Consistent() && items == old(items) - {e.key} && lru == Without(old(lru), e.key)
    {
      var i :| 0 <= i < |lru| && lru[i] == e;
      RemoveAt(lru, i);
      MapOfWithout(lru, e.key);
      FilterKeepsValid(OtherKey(e.key), Contents());
      items := items - {e.key};
      lru := lru[..i] + lru[i + 1..];
    }

    method MoveToFront(e: Entry)
      requires Consistent() && e in lru
      modifies this`lru
      ensures Consistent() && lru == [e] + Without(old(lru), e.key)
    {
      var i :| 0 <= i < |lru| && lru[i] == e;
      RemoveAt(lru, i);
      MapOfMovedToFront(lru, e);
      MoveToFrontKeepsValid(Contents(), e);
      lru := [e] + (lru[..i] + lru[i + 1..]);
    }

    method Get(q: Msg, now: int) returns (m: Option<Msg>)
      requires Consistent()
      modifies this
      ensures Consistent() && (Contents(), m) == CacheSpec.Get(old(Contents()), q, now)
    {
      var key := KeyOf(q);
      if key.Some? {
        MapOfFind(lru, key.value);
      }
      if key.None? || key.value !in items {
        misses := misses + 1;
        return None;
      }
      var e := items[key.value];
      FindMember(lru, key.value);
      if !(now < e.expires) {
        Remove(e);
        misses := misses + 1;
        return None;
      }
      hits := hits + 1;
      MoveToFront(e);
      var out := AgeMessage(e, q, now);
      m := Some(out);
    }

    /** Like Get, but nothing changes. */
    method Peek(q: Msg, now: int) returns (m: Option<(Msg, U32)>)
      requires Consistent()
      ensures m == CacheSpec.Peek(Contents(), q, now)
    {
      var key := KeyOf(q);
      if key.Some? {
        MapOfFind(lru, key.value);
      }
      if key.None? || key.value !in items {
        return None;
      }
      var e := items[key.value];
      if !(now < e.expires) {
        return None;
      }
      var out := AgeMessage(e, q, now);
      m := Some((out, WholeSeconds(e.expires - now) % 0x1_0000_0000));
    }

    /** Removes the previous entry of the key, then the least recently used entry if
        the cache is still full. */
    method MakeRoom(k: Key)
      requires Consistent() && max > 0
      modifies this`items, this`lru
      ensures Consistent() && lru == Room(Without(old(lru), k), max)
    {
      MapOfFind(lru, k);
      FindMember(lru, k);
      if k in items {
        Remove(items[k]);
      } else {
        FilterAll(OtherKey(k), lru);
      }
      Evict();
    }

    /** Removes the least recently used entry if the cache is full. */
    method Evict()
      requires Consistent() && max > 0
      modifies this`items, this`lru
      ensures Consistent() && lru == Room(old(lru), max)
    {
      MapOfSize(lru);
      if |items| >= max {
        RemoveAt(lru, |lru| - 1);
        Remove(lru[|lru| - 1]);
      }
    }

    method Put(q: Msg, m: Msg, wireLength: nat, now: int)
      requires Consistent()
      modifies this`items, this`lru
      ensures Consistent() && Contents() == CacheSpec.Put(old(Contents()), q, m, wireLength, now)
    {
      var key := KeyOf(q);
      if key.None? || max == 0 || m.truncated || wireLength > MAX_WIRE_LENGTH {
        return;
      }
      var ttl, negative := CacheTtl(m);
      if ttl == 0 {
        return;
      }
      var stored := m;
      if negative {
        stored := ClampNegativeSoa(m, ttl);
      }
      PutKeepsValid(Contents(), q, m, wireLength, now);
      PushFront(Entry(key.value, stored, now, now + ttl * SECOND));
    }

    /** Puts an entry in front, in place of one with its key, and evicts if need be. */
    method PushFront(e: Entry)
      requires Consistent() && max > 0 && Valid(Contents().(entries := [e] + Room(Without(lru, e.key), max)))
      modifies this`items, this`lru
      ensures Consistent() && lru == [e] + Room(Without(old(lru), e.key), max)
    {
      MakeRoom(e.key);
      var rest := lru;
      items := items[e.key := e];
      lru := [e] + rest;
      assert lru[1..] == rest;
    }

    /** Drops every entry that does not pass, visiting the map in any order. */
    method Expire(now: int)
      requires Consistent()
      modifies this`items, this`lru
      ensures Consistent() && Contents() == CacheSpec.Expire(old(Contents()), now)
    {
      var todo := items.Keys;
      ghost var before := lru;
      StartSweep(lru, LiveAt(now));
      while todo != {}
        invariant Consistent() && todo <= items.Keys
        invariant lru == Filter(Pending(todo, LiveAt(now)), before)
        decreases todo
      {
        var k :| k in todo;
        MapOfFind(lru, k);
        FindMember(lru, k);
        var e := items[k];
        FilterMembers(Pending(todo, LiveAt(now)), before);
        SweepOne(before, todo, LiveAt(now), e);
        if !(now < e.expires) {
          Remove(e);
        }
        todo := todo - {k};
      }
      FilterAgree(Pending(todo, LiveAt(now)), LiveAt(now), before);
    }

    /** Drops the covered entries and counts them. It looks at the first question of each
        stored message, so there has to be one. */
    method Invalidate(name: Name, qtype: nat, below: bool) returns (removed: nat)
      requires Consistent() && Questioned(Contents())
      modifies this`items, this`lru
      ensures Consistent() && Contents() == CacheSpec.Invalidate(old(Contents()), name, qtype, below)
      ensures removed == |old(lru)| - |lru| && Questioned(Contents())
    {
      var target := Lower(name);
      removed := 0;
      var todo := items.Keys;
      ghost var before := lru;
      ghost var p := Uncovered(name, qtype, below);
      StartSweep(lru, p);
      while todo != {}
        invariant Consistent() && Questioned(Contents()) && todo <= items.Keys
        invariant lru == Filter(Pending(todo, p), before)
        invariant removed == |before| - |lru|
        decreases todo
      {
        var k :| k in todo;
        MapOfFind(lru, k);
        FindMember(lru, k);
        var e := items[k];
        FilterMembers(Pending(todo, p), before);
        SweepOne(before, todo, p, e);
        var question := e.message.questions[0];
        var owner := Lower(question.name);
        FilterMembers(OtherKey(e.key), lru);
        if (qtype == 0 || question.qtype == qtype)
           && (owner == target || (below && name != [] && AtOrBelow(owner, target))) {
          RemoveShortens(lru, e);
          Remove(e);
          removed := removed + 1;
        }
        todo := todo - {k};
      }
      FilterAgree(Pending(todo, p), p, before);
    }

    method Flush()
      requires Consistent()
      modifies this`items, this`lru
      ensures Consistent() && Contents() == CacheSpec.Flush(old(Contents()))
    {
      items := map[];
      lru := [];
    }

    method SetUpstreamTtl(ttl: U32)
      requires Consistent()
      modifies this`items, this`lru, this`upstreamTtl
      ensures Consistent() && Contents() == CacheSpec.SetUpstreamTtl(old(Contents()), ttl)
    {
      if upstreamTtl == ttl {
        return;
      }
      upstreamTtl := ttl;
      items := map[];
      lru := [];
    }

    /** Applies the configured lifetime to a reply that allows it. */
    method NormalizeUpstreamTtl(m: Msg) returns (out: Msg)
      ensures out == NormalizeUpstream(m, upstreamTtl)
    {
      var ttl := upstreamTtl;
      out := m;
      if ttl == 0 || m.truncated || m.authenticated || m.rcode != SUCCESS || |m.answer| == 0 {
        return;
      }
      var all := m.answer + m.ns + m.extra;
      for i := 0 to |all|
        invariant forall k :: 0 <= k < i ==> all[k].Type() != TYPE_RRSIG && (all[k].Type() == TYPE_OPT || all[k].ttl != 0)
      {
        if all[i].Type() == TYPE_RRSIG || (all[i].Type() != TYPE_OPT && all[i].ttl == 0) {
          assert all[i] in all;
          return;
        }
      }
      var answer := OverrideSection(m.answer, ttl);
      var ns := OverrideSection(m.ns, ttl);
      var extra := OverrideSection(m.extra, ttl);
      out := m.(answer := answer, ns := ns, extra := extra);
    }
  }

  method OverrideSection(rrs: seq<RR>, ttl: U32) returns (out: seq<RR>)
    ensures out == OverrideAll(rrs, ttl)
  {
    out := [];
    for i := 0 to |rrs|
      invariant |out| == i && forall k :: 0 <= k < i ==> out[k] == OverrideRR(rrs[k], ttl)
    {
      out := out + [if rrs[i].Type() != TYPE_OPT then rrs[i].(ttl := ttl) else rrs[i]];
    }
  }
}
