/** Replicating zones: the snapshot a primary publishes and how a replica applies it. */
module Cluster {
  import opened Dns
  import opened Sorting
  import opened ZoneRecords
  import opened Zones
  import opened ZoneService

  // ---------- snapshots ----------

  datatype Entry = Entry(name: Text, data: Data, ttl: U32, priority: nat)

  datatype Item = Item(name: Text, primary: Text, contact: Text, entries: seq<Entry>)

  /** What two entries are ordered by: name, type and value. */
  datatype Key = Key(name: Text, data: Data)

  /** A total order on keys and on zone names, and how the sort of the program arranges
      entries: equal keys come in an order that depends on the list it is given. */
  datatype Order = Order(keys: (Key, Key) -> bool, names: (Text, Text) -> bool, arrange: seq<Entry> -> seq<Entry>)

  /** The sort sorts, and leaves alone what is sorted. */
  ghost predicate Ordering(o: Order) {
    && TotalOrder(o.keys) && TotalOrder(o.names)
    && (forall es :: Sorted(o.keys, KeyOf, es, o.arrange(es)))
    && (forall es :: InOrder(o.keys, KeyOf, es) ==> o.arrange(es) == es)
  }

  /** Any two orders have a sort that does: the one that inserts after equal keys. */
  lemma OrderingExists(keys: (Key, Key) -> bool, names: (Text, Text) -> bool)
    requires TotalOrder(keys) && TotalOrder(names)
    ensures Ordering(Order(keys, names, es => Arranged(keys, KeyOf, es)))
  {
    forall es ensures Sorted(keys, KeyOf, es, Arranged(keys, KeyOf, es)) {
      ArrangedIsSorted(keys, KeyOf, es);
    }
    forall es | InOrder(keys, KeyOf, es) ensures Arranged(keys, KeyOf, es) == es {
      ArrangedStays(keys, KeyOf, es);
    }
  }

  function EntryOf(r: Record): Entry { Entry(r.name, r.data, r.ttl, r.priority) }

  function Entries(rs: seq<Record>): seq<Entry> { seq(|rs|, i requires 0 <= i < |rs| => EntryOf(rs[i])) }

  function KeyOf(e: Entry): Key { Key(e.name, e.data) }

  // ---------- comparing a zone with an item ----------

  /** The item describes the zone: same name, server, contact and records. */
  ghost predicate Describes(z: Zone, item: Item) {
    && !z.secondary && z.name == item.name && z.primary == item.primary && z.contact == item.contact
    && multiset(Entries(z.records)) == multiset(item.entries)
  }

  /** The zone is published as the item is: the same records, in the same order once sorted. */
  ghost predicate Matches(o: Order, z: Zone, item: Item) {
    && !z.secondary && z.name == item.name && z.primary == item.primary && z.contact == item.contact
    && o.arrange(Entries(z.records)) == o.arrange(item.entries)
  }

  ghost predicate EntriesInOrder(o: Order, item: Item) { InOrder(o.keys, KeyOf, item.entries) }

  /** What is published alike has the same records, and conversely where the order of
      entries is determined. */
  lemma MatchesIsDescribes(o: Order, z: Zone, item: Item)
    requires Ordering(o)
    ensures Matches(o, z, item) ==> Describes(z, item)
    ensures KeysDecide(KeyOf, item.entries) ==> (Matches(o, z, item) <==> Describes(z, item))
  {
    var es := Entries(z.records);
    var current, target := o.arrange(es), o.arrange(item.entries);
    assert Sorted(o.keys, KeyOf, es, current) && Sorted(o.keys, KeyOf, item.entries, target);
    if Describes(z, item) && KeysDecide(KeyOf, item.entries) {
      KeysDecideSame(KeyOf, item.entries, target);
      SortIsUnique(o.keys, KeyOf, target, current);
    }
  }

  /** Compares digests, which stand for the sorted contents. */
  method SameZone(o: Order, z: Zone, item: Item) returns (same: bool)
    requires Ordering(o) && !z.secondary
    ensures same <==> Matches(o, z, item)
    ensures same ==> Describes(z, item)
    ensures KeysDecide(KeyOf, item.entries) ==> (same <==> Describes(z, item))
  {
    var current := o.arrange(Entries(z.records));
    var target := o.arrange(item.entries);
    same := z.name == item.name && z.primary == item.primary && z.contact == item.contact && current == target;
    MatchesIsDescribes(o, z, item);
  }

  // ---------- building a snapshot ----------

  function NameOf(i: Item): Text { i.name }

  /** The items are in order of name, and they are the zones that are not secondary. */
  ghost predicate Pictures(o: Order, m: Stored, items: seq<Item>) {
    && InOrder(o.names, NameOf, items) && DistinctKeys(NameOf, items)
    && (forall i :: 0 <= i < |items| ==> EntriesInOrder(o, items[i]) && Held(o, m, items[i]))
    && (forall k :: k in m && !m[k].secondary ==> Pictured(o, m[k], items))
  }

  ghost predicate Held(o: Order, m: Stored, item: Item) { exists k :: k in m && Matches(o, m[k], item) }

  ghost predicate Pictured(o: Order, z: Zone, items: seq<Item>) { exists i :: 0 <= i < |items| && Matches(o, z, items[i]) }

  /** Whose names the items seen so far have. */
  ghost predicate Named(all: seq<Zone>, n: nat, raw: seq<Item>)
    requires n <= |all|
  {
    forall i :: 0 <= i < |raw| ==> exists j :: 0 <= j < n && all[j].name == raw[i].name
  }

  ghost predicate AllPictured(o: Order, all: seq<Zone>, n: nat, raw: seq<Item>)
    requires n <= |all|
  {
    forall j :: 0 <= j < n && !all[j].secondary ==> Pictured(o, all[j], raw)
  }

  ghost predicate AllHeld(o: Order, m: Stored, raw: seq<Item>) {
    forall i :: 0 <= i < |raw| ==> EntriesInOrder(o, raw[i]) && Held(o, m, raw[i])
  }

  /** The items of the zones seen so far, before they are put in order of name. */
  ghost predicate Collected(o: Order, m: Stored, all: seq<Zone>, n: nat, raw: seq<Item>)
    requires n <= |all|
  {
    DistinctKeys(NameOf, raw) && Named(all, n, raw) && AllPictured(o, all, n, raw) && AllHeld(o, m, raw)
  }

  lemma PicturedOneMore(o: Order, all: seq<Zone>, n: nat, raw: seq<Item>, item: Item)
    requires n < |all| && AllPictured(o, all, n, raw) && Matches(o, all[n], item)
    ensures AllPictured(o, all, n + 1, raw + [item])
  {
    forall j | 0 <= j < n + 1 && !all[j].secondary ensures Pictured(o, all[j], raw + [item]) {
      if j < n {
        assert Pictured(o, all[j], raw);
        var i :| 0 <= i < |raw| && Matches(o, all[j], raw[i]);
        assert Matches(o, all[j], (raw + [item])[i]);
      } else {
        assert Matches(o, all[j], (raw + [item])[|raw|]);
      }
    }
  }

  lemma NamedOneMore(all: seq<Zone>, n: nat, raw: seq<Item>, item: Item)
    requires n < |all| && Named(all, n, raw) && item.name == all[n].name
    ensures Named(all, n + 1, raw + [item])
  {
    var more := raw + [item];
    assert more[|raw|].name == all[n].name;
    assert forall i :: 0 <= i < |raw| ==> more[i] == raw[i];
  }

  lemma NewName(m: Stored, all: seq<Zone>, n: nat, raw: seq<Item>)
    requires n < |all| && Named(all, n, raw) && Lists(all, m) && UniqueNames(m)
    ensures forall i :: 0 <= i < |raw| ==> raw[i].name != all[n].name
  {
    forall i | 0 <= i < |raw| ensures raw[i].name != all[n].name {
      var j :| 0 <= j < n && all[j].name == raw[i].name;
      assert all[j].id != all[n].id && m[all[j].id] == all[j] && m[all[n].id] == all[n];
    }
  }

  lemma CollectOneMore(o: Order, m: Stored, all: seq<Zone>, n: nat, raw: seq<Item>, item: Item)
    requires n < |all| && Collected(o, m, all, n, raw) && Lists(all, m) && UniqueNames(m)
    requires Matches(o, all[n], item) && EntriesInOrder(o, item)
    ensures Collected(o, m, all, n + 1, raw + [item])
  {
    NewName(m, all, n, raw);
    PicturedOneMore(o, all, n, raw, item);
    NamedOneMore(all, n, raw, item);
    assert Held(o, m, item) by {
      assert all[n].id in m && m[all[n].id] == all[n];
    }
  }

  lemma SortedPictures(o: Order, m: Stored, all: seq<Zone>, raw: seq<Item>, items: seq<Item>)
    requires Collected(o, m, all, |all|, raw) && Lists(all, m)
    requires multiset(items) == multiset(raw) && InOrder(o.names, NameOf, items) && DistinctKeys(NameOf, items)
    ensures Pictures(o, m, items)
  {
    forall i | 0 <= i < |items| ensures EntriesInOrder(o, items[i]) && Held(o, m, items[i]) {
      SameMembers(items, raw, items[i]);
    }
    forall k | k in m && !m[k].secondary ensures Pictured(o, m[k], items) {
      assert m[k] in all;
      assert Pictured(o, m[k], raw);
      var i :| 0 <= i < |raw| && Matches(o, m[k], raw[i]);
      SameMembers(raw, items, raw[i]);
    }
  }

  lemma PublishedMatches(o: Order, z: Zone, item: Item)
    requires Ordering(o) && !z.secondary && item == Item(z.name, z.primary, z.contact, o.arrange(Entries(z.records)))
    ensures Matches(o, z, item) && EntriesInOrder(o, item)
  {
    assert Sorted(o.keys, KeyOf, Entries(z.records), o.arrange(Entries(z.records)));
  }

  /** The zones a primary publishes; secondary zones are left out. */
  method BuildSnapshot(o: Order, all: seq<Zone>, ghost m: Stored) returns (items: seq<Item>)
    requires Ordering(o) && Lists(all, m) && UniqueNames(m)
    ensures Pictures(o, m, items)
  {
    var raw: seq<Item> := [];
    for n := 0 to |all|
      invariant Collected(o, m, all, n, raw)
    {
      var z := all[n];
      if z.secondary {
        continue;
      }
      var item := Item(z.name, z.primary, z.contact, o.arrange(Entries(z.records)));
      PublishedMatches(o, z, item);
      CollectOneMore(o, m, all, n, raw, item);
      raw := raw + [item];
    }
    items := Sort(o.names, NameOf, raw);
    SortedPictures(o, m, all, raw, items);
  }

  // ---------- applying a snapshot ----------

  /** What the replica should hold: one zone for each item, and no other that is its own. */
  ghost predicate Converged(o: Order, m: Stored, items: seq<Item>) {
    && (forall i :: 0 <= i < |items| ==> Held(o, m, items[i]))
    && (forall k :: k in m && !m[k].secondary ==> Pictured(o, m[k], items))
  }

  /** Two pictures of the same contents are the same picture. */
  lemma {:induction false} SameItems(o: Order, a: seq<Item>, b: seq<Item>)
    requires Ordering(o) && InOrder(o.names, NameOf, a) && DistinctKeys(NameOf, a)
    requires InOrder(o.names, NameOf, b) && DistinctKeys(NameOf, b) && (forall x :: x in a <==> x in b)
    ensures a == b
    decreases |a|
  {
    EmptyTogether(a, b);
    if a != [] {
      assert a[0] in b && b[0] in a;
      SameHead(o.names, NameOf, a, b);
      forall x ensures x in a[1..] <==> x in b[1..] {
        TailMembers(a, x);
        TailMembers(b, x);
      }
      SameItems(o, a[1..], b[1..]);
      assert a == [a[0]] + a[1..] && b == [b[0]] + b[1..];
    }
  }

  lemma EmptyTogether(a: seq<Item>, b: seq<Item>)
    requires forall x :: x in a <==> x in b
    ensures a == [] <==> b == []
  {
    if a != [] {
      assert a[0] in b;
    }
    if b != [] {
      assert b[0] in a;
    }
  }

  lemma TailMembers(a: seq<Item>, x: Item)
    requires a != [] && DistinctKeys(NameOf, a)
    ensures x in a[1..] <==> x in a && x != a[0]
  {
  }

  /** A zone is published as one item only. */
  lemma SameItem(o: Order, z: Zone, a: Item, b: Item)
    requires Ordering(o) && Matches(o, z, a) && Matches(o, z, b) && EntriesInOrder(o, a) && EntriesInOrder(o, b)
    ensures a == b
  {
  }

  lemma RebuiltIsGiven(o: Order, items: seq<Item>, replica: Stored, x: Item)
    requires Ordering(o) && Converged(o, replica, items) && (forall i :: 0 <= i < |items| ==> EntriesInOrder(o, items[i]))
    requires Held(o, replica, x) && EntriesInOrder(o, x)
    ensures x in items
  {
    var k :| k in replica && Matches(o, replica[k], x);
    assert Pictured(o, replica[k], items);
    var i :| 0 <= i < |items| && Matches(o, replica[k], items[i]);
    SameItem(o, replica[k], items[i], x);
  }

  lemma GivenIsRebuilt(o: Order, replica: Stored, rebuilt: seq<Item>, x: Item)
    requires Ordering(o) && Pictures(o, replica, rebuilt) && Held(o, replica, x) && EntriesInOrder(o, x)
    ensures x in rebuilt
  {
    var k :| k in replica && Matches(o, replica[k], x);
    assert Pictured(o, replica[k], rebuilt);
    var j :| 0 <= j < |rebuilt| && Matches(o, replica[k], rebuilt[j]);
    SameItem(o, replica[k], x, rebuilt[j]);
  }

  /** A replica that has converged publishes the snapshot it was given, hence the same
      revision. */
  lemma RebuiltIsSame(o: Order, primary: Stored, items: seq<Item>, replica: Stored, rebuilt: seq<Item>)
    requires Ordering(o) && Pictures(o, primary, items) && Converged(o, replica, items) && Pictures(o, replica, rebuilt)
    ensures rebuilt == items
  {
    forall x ensures x in rebuilt <==> x in items {
      if x in rebuilt {
        RebuiltIsGiven(o, items, replica, x);
      }
      if x in items {
        assert Held(o, replica, x);
        GivenIsRebuilt(o, replica, rebuilt, x);
      }
    }
    SameItems(o, rebuilt, items);
  }

  // ---------- what the revision depends on ----------

  /** No zone has two different records of one name, type and value. */
  ghost predicate Sharp(items: seq<Item>) { forall i :: 0 <= i < |items| ==> KeysDecide(KeyOf, items[i].entries) }

  /** The zones differ at most in the order and numbers of their records. */
  ghost predicate SameZoneData(a: Zone, b: Zone) {
    b == a.(records := b.records) && multiset(Entries(b.records)) == multiset(Entries(a.records))
  }

  ghost predicate SameData(m: Stored, m': Stored) {
    m.Keys == m'.Keys && forall k :: k in m ==> SameZoneData(m[k], m'[k])
  }

  /** Where keys decide, zones of the same data are published alike. */
  lemma SameDataMatches(o: Order, z: Zone, z': Zone, item: Item)
    requires Ordering(o) && SameZoneData(z, z') && Matches(o, z, item) && KeysDecide(KeyOf, item.entries)
    ensures Matches(o, z', item)
  {
    MatchesIsDescribes(o, z, item);
    MatchesIsDescribes(o, z', item);
  }

  lemma SameDataHolds(o: Order, m: Stored, m': Stored, item: Item)
    requires Ordering(o) && SameData(m, m') && Held(o, m, item) && KeysDecide(KeyOf, item.entries)
    ensures Held(o, m', item)
  {
    var k :| k in m && Matches(o, m[k], item);
    SameDataMatches(o, m[k], m'[k], item);
  }

  lemma SameDataPictured(o: Order, z: Zone, z': Zone, items: seq<Item>)
    requires Ordering(o) && SameZoneData(z, z') && Pictured(o, z, items) && Sharp(items)
    ensures Pictured(o, z', items)
  {
    var i :| 0 <= i < |items| && Matches(o, z, items[i]);
    SameDataMatches(o, z, z', items[i]);
  }

  lemma SameDataConverged(o: Order, m: Stored, m': Stored, items: seq<Item>)
    requires Ordering(o) && SameData(m, m') && Converged(o, m, items) && Sharp(items)
    ensures Converged(o, m', items)
  {
    forall i | 0 <= i < |items| ensures Held(o, m', items[i]) {
      SameDataHolds(o, m, m', items[i]);
    }
    forall k | k in m' && !m'[k].secondary ensures Pictured(o, m'[k], items) {
      assert SameZoneData(m[k], m'[k]);
      SameDataPictured(o, m[k], m'[k], items);
    }
  }

  /** An item with two different records of one key has another arrangement. */
  lemma OtherArrangement(o: Order, a: Item) returns (b: Item)
    requires EntriesInOrder(o, a) && !KeysDecide(KeyOf, a.entries)
    ensures b == a.(entries := b.entries) && multiset(b.entries) == multiset(a.entries) && EntriesInOrder(o, b) && b != a
  {
    var i, j := FindTie(KeyOf, a.entries);
    TiesSwap(o.keys, KeyOf, a.entries, i, j);
    b := a.(entries := Swapped(a.entries, i, j));
  }

  /** Storing the records of a zone in the order of an item publishes the item. */
  lemma StoredInOrder(o: Order, z: Zone, a: Item, b: Item) returns (z': Zone)
    requires Ordering(o) && Matches(o, z, a) && b == a.(entries := b.entries) && multiset(b.entries) == multiset(a.entries)
    ensures SameZoneData(z, z') && Matches(o, z', b)
  {
    z' := z.(records := RecordsOf(b.entries));
    assert Entries(z'.records) == b.entries;
    MatchesIsDescribes(o, z, a);
  }

  lemma ReplacedHolds(o: Order, m: Stored, k: int, z': Zone, item: Item)
    requires k in m && Held(o, m, item) && m[k].name != item.name
    ensures Held(o, m[k := z'], item)
  {
    var m' := m[k := z'];
    var l :| l in m && Matches(o, m[l], item);
    assert Matches(o, m'[l], item);
  }

  lemma ReplacedPictured(o: Order, z: Zone, items: seq<Item>, n: nat, b: Item)
    requires n < |items| && Pictured(o, z, items) && z.name != items[n].name
    ensures Pictured(o, z, items[n := b])
  {
    var others := items[n := b];
    var i :| 0 <= i < |items| && Matches(o, z, items[i]);
    assert Matches(o, z, others[i]);
  }

  lemma ReplacedNames(o: Order, items: seq<Item>, n: nat, b: Item)
    requires n < |items| && b.name == items[n].name && InOrder(o.names, NameOf, items) && DistinctKeys(NameOf, items)
    ensures InOrder(o.names, NameOf, items[n := b]) && DistinctKeys(NameOf, items[n := b])
  {
    var others := items[n := b];
    assert forall i :: 0 <= i < |items| ==> NameOf(others[i]) == NameOf(items[i]);
  }

  lemma ReplacedPictures(o: Order, m: Stored, items: seq<Item>, n: nat, k: int, z': Zone, b: Item)
    requires Pictures(o, m, items) && UniqueNames(m) && n < |items| && k in m && Matches(o, m[k], items[n])
    requires Matches(o, z', b) && EntriesInOrder(o, b) && b.name == items[n].name
    ensures Pictures(o, m[k := z'], items[n := b])
  {
    var m', others := m[k := z'], items[n := b];
    ReplacedNames(o, items, n, b);
    forall i | 0 <= i < |others| ensures EntriesInOrder(o, others[i]) && Held(o, m', others[i]) {
      if i == n {
        assert Matches(o, m'[k], others[i]);
      } else {
        assert NameOf(items[i]) != NameOf(items[n]);
        ReplacedHolds(o, m, k, z', items[i]);
      }
    }
    forall l | l in m' && !m'[l].secondary ensures Pictured(o, m'[l], others) {
      if l == k {
        assert Matches(o, m'[l], others[n]);
      } else {
        ReplacedPictured(o, m[l], items, n, b);
      }
    }
  }

  lemma TiesPublishDifferently(o: Order, m: Stored, items: seq<Item>, n: nat) returns (m': Stored, others: seq<Item>)
    requires Ordering(o) && Pictures(o, m, items) && UniqueNames(m) && n < |items| && !KeysDecide(KeyOf, items[n].entries)
    ensures SameData(m, m') && Pictures(o, m', others) && others != items
  {
    var b := OtherArrangement(o, items[n]);
    assert Held(o, m, items[n]);
    var k :| k in m && Matches(o, m[k], items[n]);
    var z' := StoredInOrder(o, m[k], items[n], b);
    ReplacedPictures(o, m, items, n, k, z', b);
    m', others := m[k := z'], items[n := b];
    assert others[n] != items[n];
  }

  /** The revision changes only when data changes exactly if no zone has two different
      records of one name, type and value. */
  lemma RevisionIsOfData(o: Order, m: Stored, items: seq<Item>)
    requires Ordering(o) && Pictures(o, m, items) && UniqueNames(m)
    ensures (forall m', others :: SameData(m, m') && Pictures(o, m', others) ==> others == items) <==> Sharp(items)
  {
    if Sharp(items) {
      forall m', others | SameData(m, m') && Pictures(o, m', others) ensures others == items {
        SameDataConverged(o, m, m', items);
        RebuiltIsSame(o, m, items, m', others);
      }
    } else {
      var n :| 0 <= n < |items| && !KeysDecide(KeyOf, items[n].entries);
      var m', others := TiesPublishDifferently(o, m, items, n);
    }
  }

  /** A zone with two mail exchangers that differ only in priority. */
  function TiedZone(apex: Name, host: Text, ttl: U32, p: nat, q: nat): Zone {
    var top := Text(apex, true);
    Zone(1, top, host, host, 1, [Record(1, top, ttl, MX(host), p), Record(2, top, ttl, MX(host), q)], false)
  }

  lemma TiedZoneNormal(apex: Name, host: Text, ttl: U32, p: nat, q: nat)
    requires Normal(Text(apex, true)) && Normal(host) && ttl <= MAX_RECORD_TTL
    ensures NormalizeZone(TiedZone(apex, host, ttl, p, q)) == Some(TiedZone(apex, host, ttl, p, q))
  {
    var z := TiedZone(apex, host, ttl, p, q);
    DomainNormal(Text(apex, true));
    DomainNormal(host);
    NormalExchanger(apex, host, ttl, p, 1);
    NormalExchanger(apex, host, ttl, q, 2);
    assert NormalizeRecords(apex, z.records) == z.records;
  }

  lemma NormalExchanger(apex: Name, host: Text, ttl: U32, p: nat, id: int)
    requires Normal(Text(apex, true)) && Normal(host) && ttl <= MAX_RECORD_TTL
    ensures var r := Record(id, Text(apex, true), ttl, MX(host), p); NormalizeRecord(apex, r) == Some(r)
  {
    DomainNormal(Text(apex, true));
    DomainNormal(host);
    assert apex[|apex| - |apex|..] == apex;
  }

  lemma {:induction false} NoAliasFiled(rrs: seq<RR>, n: Name)
    requires forall rr :: rr in rrs ==> !rr.data.Alias?
    ensures FirstAlias(At(Grouped(rrs), n)).None?
  {
    GroupedAt(rrs, n);
    FilterMembers(OwnedBy(n), rrs);
    NoAlias(RecordsAt(rrs, n));
  }

  lemma {:induction false} NoAlias(rrs: seq<RR>)
    requires forall rr :: rr in rrs ==> !rr.data.Alias?
    ensures FirstAlias(rrs).None?
  {
    if rrs != [] {
      NoAlias(rrs[1..]);
    }
  }

  lemma TiedZoneGood(apex: Name, host: Text, ttl: U32, p: nat, q: nat)
    requires p != q
    ensures GoodZone(TiedZone(apex, host, ttl, p, q)) && forall rr :: rr in Rrs(TiedZone(apex, host, ttl, p, q).records) ==> !rr.data.Alias?
  {
    var rs := TiedZone(apex, host, ttl, p, q).records;
    assert Rr(rs[0]) == RR(apex, ttl, Raw(TYPE_MX, Content(host.labels, p)));
    assert Rr(rs[1]) == RR(apex, ttl, Raw(TYPE_MX, Content(host.labels, q)));
    assert Rrs(rs) == [Rr(rs[0]), Rr(rs[1])];
  }

  lemma NoAliasLoopFree(z: Zone)
    requires forall rr :: rr in Rrs(z.records) ==> !rr.data.Alias?
    ensures LoopFree(map[z.name.labels := ViewOf(z)])
  {
    var t := map[z.name.labels := ViewOf(z)];
    forall k, n | k in t && n in t[k].records ensures FirstAlias(t[k].records[n]).None? {
      NoAliasFiled(Rrs(z.records), n);
    }
  }

  lemma OneZoneCompiles(z: Zone)
    requires NormalizeZone(z) == Some(z) && GoodZone(z) && LoopFree(map[z.name.labels := ViewOf(z)])
    ensures CompileSpec([z]).Some?
  {
    assert NormalizeAll([z]) == [z];
    NormalizeZoneIdempotent(z);
    SnapshotOneMore([], z);
    SoundOneMore([], z);
    assert [] + [z] == [z];
    assert |z.records| <= MAX_RECORDS;
  }

  /** Such a zone is served, and its entries have no determined order: its revision is not
      determined by its records. */
  lemma TiedZoneIsServed(apex: Name, host: Text, ttl: U32, p: nat, q: nat)
    requires Normal(Text(apex, true)) && Normal(host) && ttl <= MAX_RECORD_TTL && p != q
    ensures CompileSpec([TiedZone(apex, host, ttl, p, q)]).Some?
    ensures !KeysDecide(KeyOf, Entries(TiedZone(apex, host, ttl, p, q).records))
  {
    var z := TiedZone(apex, host, ttl, p, q);
    TiedZoneNormal(apex, host, ttl, p, q);
    TiedZoneGood(apex, host, ttl, p, q);
    NoAliasLoopFree(z);
    OneZoneCompiles(z);
    TiedEntries(Entries(z.records));
  }

  lemma TiedEntries(es: seq<Entry>)
    requires |es| == 2 && KeyOf(es[0]) == KeyOf(es[1]) && es[0] != es[1]
    ensures !KeysDecide(KeyOf, es)
  {
    assert es[0] in es && es[1] in es;
  }

  // ---------- one item at a time ----------

  function RecordOf(e: Entry): Record { Record(0, e.name, e.ttl, e.data, e.priority) }

  function RecordsOf(es: seq<Entry>): seq<Record> { seq(|es|, i requires 0 <= i < |es| => RecordOf(es[i])) }

  function ZoneOf(item: Item): Zone {
    Zone(0, item.name, item.primary, item.contact, 0, RecordsOf(item.entries), false)
  }

  lemma ContentMatches(o: Order, z: Zone, item: Item)
    requires SameContent(z, ZoneOf(item))
    ensures Matches(o, z, item)
  {
    assert Entries(z.records) == item.entries;
  }

  /** A repository that keeps its contract, whatever it is asked. */
  ghost predicate Honest(answer: (Stored, Zone) -> Answer) {
    forall m, z :: Contract(m, z, answer(m, z))
  }

  /** The replica's own zone of a name. */
  ghost predicate Own(m: Stored, name: Text, existing: Option<Zone>) {
    match existing
    case None => forall k :: k in m ==> m[k].secondary || m[k].name != name
    case Some(z) => z.id in m && m[z.id] == z && !z.secondary && z.name == name
  }

  /** The item is stored under the identifier of the zone it replaces, or a new one. */
  ghost predicate Put(o: Order, m: Stored, m': Stored, existing: Option<Zone>, item: Item, id: int) {
    && id in m' && Matches(o, m'[id], item) && m' == m[id := m'[id]]
    && (if existing.Some? then id == existing.value.id else id !in m)
  }

  method PutItem(service: Service, o: Order, existing: Option<Zone>, item: Item, answer: (Stored, Zone) -> Answer) returns (ok: bool)
    requires service.Valid() && Ordering(o) && Honest(answer) && service.rules.normal(ZoneOf(item))
    requires Own(service.stored, item.name, existing)
    modifies service
    ensures service.Valid()
    ensures !ok ==> service.Contents() == old(service.Contents())
    ensures ok ==> exists id :: Put(o, old(service.stored), service.stored, existing, item, id)
  {
    var zone := ZoneOf(item);
    ghost var before := service.Contents();
    if existing.None? {
      var a := answer(service.stored, zone);
      CreateKeepsContent(service.rules, before, zone, a);
      CreateKeepsCoherent(service.rules, before, zone, a);
      var created := service.CreateZone(zone, a);
      if created.Saved? {
        ContentMatches(o, created.zone, item);
        assert Put(o, before.stored, service.stored, existing, item, created.zone.id);
      }
      return created.Saved?;
    }
    var same := SameZone(o, existing.value, item);
    if same {
      assert Put(o, before.stored, service.stored, existing, item, existing.value.id);
      return true;
    }
    var z := existing.value;
    var a := answer(service.stored, zone.(id := z.id));
    UpdateKeepsContent(service.rules, before, z.id, z.revision, zone, a);
    UpdateKeepsCoherent(service.rules, before, z.id, z.revision, zone, a);
    var out := service.UpdateZone(z.id, z.revision, zone, a);
    if out.Saved? {
      ContentMatches(o, out.zone, item);
      assert Put(o, before.stored, service.stored, existing, item, out.zone.id);
    }
    return out.Saved?;
  }

  // ---------- the whole snapshot ----------

  /** Every zone is the old one or one of the first `n` items. */
  ghost predicate OldOrNew(o: Order, m0: Stored, m: Stored, items: seq<Item>, n: nat)
    requires n <= |items|
  {
    forall k :: k in m ==> (k in m0 && m[k] == m0[k]) || (!m[k].secondary && Pictured(o, m[k], items[..n]))
  }

  ghost predicate Wanted(items: seq<Item>, name: Text) { exists i :: 0 <= i < |items| && items[i].name == name }

  /** Zones that are secondary, or not named by the first `n` items, are as they were. */
  ghost predicate Untouched(m0: Stored, m: Stored, items: seq<Item>, n: nat)
    requires n <= |items|
  {
    forall k :: k in m0 && (m0[k].secondary || !Wanted(items[..n], m0[k].name)) ==> k in m && m[k] == m0[k]
  }

  ghost predicate FirstHeld(o: Order, m: Stored, items: seq<Item>, n: nat)
    requires n <= |items|
  {
    forall i :: 0 <= i < n ==> Held(o, m, items[i])
  }

  ghost predicate Progress(o: Order, m0: Stored, m: Stored, items: seq<Item>, n: nat)
    requires n <= |items|
  {
    m0.Keys <= m.Keys && OldOrNew(o, m0, m, items, n) && Untouched(m0, m, items, n) && FirstHeld(o, m, items, n)
  }

  lemma OldOrNewStep(o: Order, m0: Stored, m: Stored, m': Stored, items: seq<Item>, n: nat, existing: Option<Zone>, id: int)
    requires n < |items| && OldOrNew(o, m0, m, items, n) && Put(o, m, m', existing, items[n], id)
    ensures OldOrNew(o, m0, m', items, n + 1)
  {
    forall k | k in m' ensures (k in m0 && m'[k] == m0[k]) || (!m'[k].secondary && Pictured(o, m'[k], items[..n + 1])) {
      if k == id {
        assert Matches(o, m'[k], items[..n + 1][n]);
      } else if Pictured(o, m'[k], items[..n]) {
        var i :| 0 <= i < n && Matches(o, m'[k], items[..n][i]);
        assert Matches(o, m'[k], items[..n + 1][i]);
      }
    }
  }

  lemma UntouchedStep(o: Order, m0: Stored, m: Stored, m': Stored, items: seq<Item>, n: nat, existing: Option<Zone>, id: int)
    requires n < |items| && Untouched(m0, m, items, n) && m0.Keys <= m.Keys
    requires Own(m0, items[n].name, existing) && Put(o, m, m', existing, items[n], id)
    ensures Untouched(m0, m', items, n + 1)
  {
    forall k | k in m0 && (m0[k].secondary || !Wanted(items[..n + 1], m0[k].name)) ensures k in m' && m'[k] == m0[k] {
      assert items[..n + 1][n] == items[n];
      WantedGrows(items, n, m0[k].name);
      assert k != id;
    }
  }

  lemma WantedGrows(items: seq<Item>, n: nat, name: Text)
    requires n < |items|
    ensures Wanted(items[..n + 1], name) <==> Wanted(items[..n], name) || items[n].name == name
  {
    if Wanted(items[..n], name) {
      var i :| 0 <= i < n && items[..n][i].name == name;
      assert items[..n + 1][i].name == name;
    }
    if items[n].name == name {
      assert items[..n + 1][n].name == name;
    }
  }

  lemma HeldStep(o: Order, m: Stored, m': Stored, items: seq<Item>, n: nat, existing: Option<Zone>, id: int)
    requires n < |items| && FirstHeld(o, m, items, n) && DistinctKeys(NameOf, items) && Put(o, m, m', existing, items[n], id)
    requires existing.Some? ==> existing.value.id in m && m[existing.value.id].name == items[n].name
    ensures FirstHeld(o, m', items, n + 1)
  {
    forall i | 0 <= i < n + 1 ensures Held(o, m', items[i]) {
      if i < n {
        assert Held(o, m, items[i]);
        var k :| k in m && Matches(o, m[k], items[i]);
        assert NameOf(items[i]) != NameOf(items[n]);
        assert k in m' && m'[k] == m[k];
      } else {
        assert Matches(o, m'[id], items[i]);
      }
    }
  }

  lemma ProgressStep(o: Order, m0: Stored, m: Stored, m': Stored, items: seq<Item>, n: nat, existing: Option<Zone>, id: int)
    requires n < |items| && DistinctKeys(NameOf, items) && Progress(o, m0, m, items, n)
    requires Own(m0, items[n].name, existing) && Own(m, items[n].name, existing) && Put(o, m, m', existing, items[n], id)
    ensures Progress(o, m0, m', items, n + 1)
  {
    OldOrNewStep(o, m0, m, m', items, n, existing, id);
    UntouchedStep(o, m0, m, m', items, n, existing, id);
    HeldStep(o, m, m', items, n, existing, id);
  }

  /** What was the replica's own zone of the next name still is. */
  lemma StillOwn(o: Order, m0: Stored, m: Stored, items: seq<Item>, n: nat, existing: Option<Zone>)
    requires n < |items| && DistinctKeys(NameOf, items) && Progress(o, m0, m, items, n) && Own(m0, items[n].name, existing)
    ensures Own(m, items[n].name, existing)
  {
    if existing.None? {
      forall k | k in m ensures m[k].secondary || m[k].name != items[n].name {
        if Pictured(o, m[k], items[..n]) {
          var i :| 0 <= i < n && Matches(o, m[k], items[..n][i]);
          assert NameOf(items[i]) != NameOf(items[n]);
        }
      }
    }
  }

  // ---------- removing what is not wanted ----------

  /** Secondary zones are as they were, and only unwanted zones are gone. */
  ghost predicate Spared(m0: Stored, m: Stored, items: seq<Item>) {
    && (forall k :: k in m0 && m0[k].secondary ==> k in m && m[k] == m0[k])
    && (forall k :: k in m0 && Wanted(items, m0[k].name) ==> k in m)
  }

  /** What holds whether or not applying succeeds: every zone is wholly the old one or
      wholly what the snapshot wants, and secondary zones are untouched. */
  ghost predicate Wholly(o: Order, m0: Stored, m: Stored, items: seq<Item>) {
    OldOrNew(o, m0, m, items, |items|) && Spared(m0, m, items)
  }

  predicate Removable(z: Zone) { !z.secondary }

  /** Unwanted zones whose names are still to be visited are there, and no others. */
  ghost predicate Leftover(m0: Stored, m: Stored, items: seq<Item>, todo: set<Text>) {
    && (forall k :: k in m0 && Removable(m0[k]) && !Wanted(items, m0[k].name) && m0[k].name in todo ==> k in m && m[k] == m0[k])
    && (forall k :: k in m && Removable(m[k]) && !Wanted(items, m[k].name) ==> m[k].name in todo)
  }

  ghost predicate Pruning(o: Order, m0: Stored, m: Stored, items: seq<Item>, todo: set<Text>) {
    Wholly(o, m0, m, items) && FirstHeld(o, m, items, |items|) && Leftover(m0, m, items, todo)
  }

  lemma AllItems(items: seq<Item>)
    ensures items[..|items|] == items
  {
  }

  lemma PicturedLater(o: Order, z: Zone, items: seq<Item>, n: nat)
    requires n <= |items| && Pictured(o, z, items[..n])
    ensures Pictured(o, z, items) && Wanted(items, z.name)
  {
    var i :| 0 <= i < n && Matches(o, z, items[..n][i]);
    assert Matches(o, z, items[i]);
  }

  lemma ProgressIsWhole(o: Order, m0: Stored, m: Stored, items: seq<Item>, n: nat)
    requires n <= |items| && Progress(o, m0, m, items, n)
    ensures Wholly(o, m0, m, items)
  {
    AllItems(items);
    forall k | k in m ensures (k in m0 && m[k] == m0[k]) || (!m[k].secondary && Pictured(o, m[k], items)) {
      if Pictured(o, m[k], items[..n]) {
        PicturedLater(o, m[k], items, n);
      }
    }
  }

  /** The replica's own zones by name. */
  ghost predicate Local(m: Stored, local: map<Text, Zone>) {
    forall name :: Own(m, name, if name in local then Some(local[name]) else None)
  }

  lemma PruningStarts(o: Order, m0: Stored, m: Stored, items: seq<Item>, local: map<Text, Zone>)
    requires Progress(o, m0, m, items, |items|) && Local(m0, local)
    ensures Pruning(o, m0, m, items, local.Keys)
  {
    AllItems(items);
    ProgressIsWhole(o, m0, m, items, |items|);
    forall k | k in m && Removable(m[k]) && !Wanted(items, m[k].name) ensures m[k].name in local.Keys {
      if Pictured(o, m[k], items[..|items|]) {
        PicturedLater(o, m[k], items, |items|);
      }
      assert Own(m0, m[k].name, if m[k].name in local then Some(local[m[k].name]) else None);
    }
  }

  lemma KeepWanted(o: Order, m0: Stored, m: Stored, items: seq<Item>, todo: set<Text>, name: Text)
    requires Pruning(o, m0, m, items, todo) && Wanted(items, name)
    ensures Pruning(o, m0, m, items, todo - {name})
  {
  }

  lemma RemoveKeepsHeld(o: Order, m: Stored, items: seq<Item>, id: int)
    requires FirstHeld(o, m, items, |items|) && id in m && !Wanted(items, m[id].name)
    ensures FirstHeld(o, m - {id}, items, |items|)
  {
    forall i | 0 <= i < |items| ensures Held(o, m - {id}, items[i]) {
      assert Held(o, m, items[i]);
      var k :| k in m && Matches(o, m[k], items[i]);
      assert k != id;
      assert (m - {id})[k] == m[k];
    }
  }

  lemma RemoveUnwanted(o: Order, m0: Stored, m: Stored, items: seq<Item>, todo: set<Text>, z: Zone)
    requires Pruning(o, m0, m, items, todo) && UniqueNames(m0) && UniqueNames(m)
    requires z.id in m0 && m0[z.id] == z && z.id in m && m[z.id] == z && !z.secondary && !Wanted(items, z.name)
    ensures Pruning(o, m0, m - {z.id}, items, todo - {z.name})
  {
    RemoveKeepsHeld(o, m, items, z.id);
  }

  lemma PrunedIsConverged(o: Order, m0: Stored, m: Stored, items: seq<Item>)
    requires Pruning(o, m0, m, items, {}) && UniqueNames(m)
    ensures Converged(o, m, items)
  {
    forall k | k in m && !m[k].secondary ensures Pictured(o, m[k], items) {
      assert Wanted(items, m[k].name);
      var i :| 0 <= i < |items| && items[i].name == m[k].name;
      assert Held(o, m, items[i]);
      var l :| l in m && Matches(o, m[l], items[i]);
      assert l == k;
    }
  }

  // ---------- the replica ----------

  ghost predicate LocalUpTo(all: seq<Zone>, m: Stored, n: nat, local: map<Text, Zone>)
    requires n <= |all|
  {
    && (forall name :: name in local ==> Own(m, name, Some(local[name])))
    && (forall j :: 0 <= j < n ==> all[j].secondary || all[j].name in local)
  }

  method LocalZones(service: Service) returns (local: map<Text, Zone>)
    requires service.Valid()
    ensures Local(service.stored, local)
  {
    var all := service.List();
    StoredNamesUnique(service.rules, service.Contents());
    local := map[];
    for n := 0 to |all|
      invariant LocalUpTo(all, service.stored, n, local)
    {
      if !all[n].secondary {
        local := local[all[n].name := all[n]];
      }
    }
    LocalIsAll(all, service.stored, local);
  }

  lemma LocalIsAll(all: seq<Zone>, m: Stored, local: map<Text, Zone>)
    requires Lists(all, m) && LocalUpTo(all, m, |all|, local)
    ensures Local(m, local)
  {
    forall name ensures Own(m, name, if name in local then Some(local[name]) else None) {
      if name !in local {
        forall k | k in m ensures m[k].secondary || m[k].name != name {
          assert m[k] in all;
        }
      }
    }
  }

  /** A snapshot as a primary builds it: normalised zones under distinct names. */
  ghost predicate Publishable(r: Rules, items: seq<Item>) {
    DistinctKeys(NameOf, items) && forall i :: 0 <= i < |items| ==> r.normal(ZoneOf(items[i]))
  }

  /** Creates and updates; stops at the first failure. */
  method PutAll(service: Service, o: Order, items: seq<Item>, local: map<Text, Zone>, answer: (Stored, Zone) -> Answer) returns (ok: bool)
    requires service.Valid() && Ordering(o) && Honest(answer) && Publishable(service.rules, items) && Local(service.stored, local)
    modifies service
    ensures service.Valid() && Wholly(o, old(service.stored), service.stored, items)
    ensures ok ==> Progress(o, old(service.stored), service.stored, items, |items|)
  {
    ghost var m0 := service.stored;
    for n := 0 to |items|
      invariant service.Valid() && Progress(o, m0, service.stored, items, n)
    {
      var name := items[n].name;
      var existing := if name in local then Some(local[name]) else None;
      assert Own(m0, name, existing);
      StillOwn(o, m0, service.stored, items, n, existing);
      ghost var m := service.stored;
      ok := PutItem(service, o, existing, items[n], answer);
      if !ok {
        ProgressIsWhole(o, m0, m, items, n);
        return;
      }
      ghost var id :| Put(o, m, service.stored, existing, items[n], id);
      ProgressStep(o, m0, m, service.stored, items, n, existing, id);
    }
    ProgressIsWhole(o, m0, service.stored, items, |items|);
    ok := true;
  }

  /** Deletes one zone the snapshot does not have. */
  method Remove(service: Service, z: Zone, fails: bool) returns (ok: bool)
    requires service.Valid() && z.id in service.stored && service.stored[z.id] == z
    modifies service
    ensures service.Valid()
    ensures service.stored == if ok then old(service.stored) - {z.id} else old(service.stored)
  {
    ghost var before := service.Contents();
    DeleteKeepsCoherent(service.rules, before, z.id, z.revision, fails);
    var o := service.DeleteZone(z.id, z.revision, fails);
    return o.Deleted?;
  }

  lemma LocalIsStored(m: Stored, local: map<Text, Zone>, name: Text)
    requires Local(m, local) && name in local
    ensures var z := local[name]; z.id in m && m[z.id] == z && !z.secondary && z.name == name
  {
    assert Own(m, name, if name in local then Some(local[name]) else None);
  }

  /** Deletes an unwanted zone and gets on with the rest, or stops. */
  method RemoveLocal(ghost o: Order, service: Service, ghost items: seq<Item>, z: Zone, fails: (Stored, Zone) -> bool, ghost m0: Stored, ghost todo: set<Text>)
    returns (ok: bool)
    requires service.Valid() && Pruning(o, m0, service.stored, items, todo) && UniqueNames(m0)
    requires z.id in m0 && m0[z.id] == z && !z.secondary && z.name in todo && !Wanted(items, z.name)
    modifies service
    ensures service.Valid() && Wholly(o, m0, service.stored, items)
    ensures ok ==> Pruning(o, m0, service.stored, items, todo - {z.name})
  {
    StoredNamesUnique(service.rules, service.Contents());
    ghost var m := service.stored;
    assert z.id in m && m[z.id] == z;
    ok := Remove(service, z, fails(service.stored, z));
    if ok {
      RemoveUnwanted(o, m0, m, items, todo, z);
    }
  }

  /** Deletes the zones the snapshot does not have, in any order. */
  method Prune(ghost o: Order, service: Service, items: seq<Item>, local: map<Text, Zone>, fails: (Stored, Zone) -> bool, ghost m0: Stored) returns (ok: bool)
    requires service.Valid() && Progress(o, m0, service.stored, items, |items|) && Local(m0, local) && UniqueNames(m0)
    modifies service
    ensures service.Valid() && Wholly(o, m0, service.stored, items)
    ensures ok ==> Converged(o, service.stored, items)
  {
    PruningStarts(o, m0, service.stored, items, local);
    var wanted := set i | 0 <= i < |items| :: items[i].name;
    var todo := local.Keys;
    while todo != {}
      invariant service.Valid() && todo <= local.Keys && Pruning(o, m0, service.stored, items, todo)
      decreases todo
    {
      var name :| name in todo;
      if name in wanted {
        KeepWanted(o, m0, service.stored, items, todo, name);
      } else {
        LocalIsStored(m0, local, name);
        ok := RemoveLocal(o, service, items, local[name], fails, m0, todo);
        if !ok {
          return;
        }
      }
      todo := todo - {name};
    }
    StoredNamesUnique(service.rules, service.Contents());
    PrunedIsConverged(o, m0, service.stored, items);
    ok := true;
  }

  /** Makes the replica's own zones equal to the snapshot, one zone at a time. */
  method Apply(service: Service, o: Order, items: seq<Item>, answer: (Stored, Zone) -> Answer, fails: (Stored, Zone) -> bool) returns (ok: bool)
    requires service.Valid() && Ordering(o) && Honest(answer) && Publishable(service.rules, items)
    modifies service
    ensures service.Valid() && Wholly(o, old(service.stored), service.stored, items)
    ensures ok ==> Converged(o, service.stored, items)
  {
    ghost var m0 := service.stored;
    StoredNamesUnique(service.rules, service.Contents());
    var local := LocalZones(service);
    ok := PutAll(service, o, items, local, answer);
    if !ok {
      return;
    }
    ok := Prune(o, service, items, local, fails, m0);
  }

  /** A revision is the digest of a snapshot, which stands for its items. */
  type Revision = seq<Item>

  class Replica {
    const zones: Service
    var applied: Option<Revision>

    constructor (zones: Service)
      ensures this.zones == zones && applied == None
    {
      this.zones, applied := zones, None;
    }

    /** Applies a snapshot unless it is the one applied last; only success is recorded. */
    method PullAndApply(o: Order, items: seq<Item>, answer: (Stored, Zone) -> Answer, fails: (Stored, Zone) -> bool) returns (ok: bool)
      requires zones.Valid() && Ordering(o) && Honest(answer) && Publishable(zones.rules, items)
      modifies this`applied, zones
      ensures zones.Valid() && Wholly(o, old(zones.stored), zones.stored, items)
      ensures applied == if ok then Some(items) else old(applied)
      ensures ok && old(applied) != Some(items) ==> Converged(o, zones.stored, items)
      ensures old(applied) == Some(items) ==> ok && zones.stored == old(zones.stored)
    {
      if applied == Some(items) {
        return true;
      }
      ok := Apply(zones, o, items, answer, fails);
      if ok {
        applied := Some(items);
      }
    }
  }

  // ---------- what a primary publishes ----------

  lemma ItemRecord(o: Order, z: Zone, item: Item, i: nat)
    requires Ordering(o) && Matches(o, z, item) && i < |item.entries|
    ensures exists j :: 0 <= j < |z.records| && RecordOf(item.entries[i]) == z.records[j].(id := 0)
  {
    MatchesIsDescribes(o, z, item);
    SameMembers(item.entries, Entries(z.records), item.entries[i]);
    var j :| 0 <= j < |z.records| && Entries(z.records)[j] == item.entries[i];
    assert RecordOf(EntryOf(z.records[j])) == z.records[j].(id := 0);
  }

  lemma NormalRecordOf(z: Zone, j: nat)
    requires NormalizeZone(z) == Some(z) && j < |z.records|
    ensures NormalizeRecord(z.name.labels, z.records[j].(id := 0)) == Some(z.records[j].(id := 0))
  {
    assert NormalizeRecords(z.name.labels, z.records)[j] == z.records[j];
    NormalRecordRenumbered(z.name.labels, z.records[j], 0);
  }

  lemma ItemRecordNormal(o: Order, z: Zone, item: Item, i: nat)
    requires Ordering(o) && NormalizeZone(z) == Some(z) && Matches(o, z, item) && i < |item.entries|
    ensures NormalizeRecord(z.name.labels, RecordOf(item.entries[i])) == Some(RecordOf(item.entries[i]))
  {
    ItemRecord(o, z, item, i);
    var j :| 0 <= j < |z.records| && RecordOf(item.entries[i]) == z.records[j].(id := 0);
    NormalRecordOf(z, j);
  }

  /** What a zone in normal form has, and what makes one. */
  predicate NormalParts(z: Zone) {
    Domain(z.name) == Some(z.name) && Domain(z.primary) == Some(z.primary) && Domain(z.contact) == Some(z.contact) && |z.records| <= MAX_RECORDS
  }

  lemma PartsOfNormal(z: Zone)
    requires NormalizeZone(z) == Some(z)
    ensures NormalParts(z)
  {
  }

  lemma NormalOfParts(z: Zone)
    requires NormalParts(z) && forall i :: 0 <= i < |z.records| ==> NormalizeRecord(z.name.labels, z.records[i]) == Some(z.records[i])
    ensures NormalizeZone(z) == Some(z)
  {
    assert NormalizeRecords(z.name.labels, z.records) == z.records;
  }

  lemma ItemIsNormal(o: Order, z: Zone, item: Item)
    requires Ordering(o) && NormalizeZone(z) == Some(z) && Matches(o, z, item)
    ensures NormalizeZone(ZoneOf(item)) == Some(ZoneOf(item))
  {
    var out := ZoneOf(item);
    PartsOfNormal(z);
    MatchesIsDescribes(o, z, item);
    SameLength(Entries(z.records), item.entries);
    forall i | 0 <= i < |out.records| ensures NormalizeRecord(out.name.labels, out.records[i]) == Some(out.records[i]) {
      ItemRecordNormal(o, z, item, i);
    }
    NormalOfParts(out);
  }

  /** A snapshot of stored zones meets what a replica needs of it. */
  lemma SnapshotIsProper(o: Order, m: Stored, items: seq<Item>)
    requires Ordering(o) && Pictures(o, m, items) && Normalized(m)
    ensures Publishable(ZoneRules(), items)
  {
    forall i | 0 <= i < |items| ensures ZoneRules().normal(ZoneOf(items[i])) {
      assert Held(o, m, items[i]);
      var k :| k in m && Matches(o, m[k], items[i]);
      ItemIsNormal(o, m[k], items[i]);
    }
  }

  /** A round of replication: what one server publishes and another applies, the other
      publishes again. */
  method Replicate(primary: Service, replica: Service, o: Order, answer: (Stored, Zone) -> Answer, fails: (Stored, Zone) -> bool)
    returns (ok: bool, items: seq<Item>, rebuilt: seq<Item>)
    requires primary != replica && primary.Valid() && replica.Valid() && primary.rules == replica.rules == ZoneRules()
    requires Ordering(o) && Honest(answer)
    modifies replica
    ensures replica.Valid() && Pictures(o, primary.stored, items) && Pictures(o, replica.stored, rebuilt)
    ensures Wholly(o, old(replica.stored), replica.stored, items)
    ensures ok ==> rebuilt == items
  {
    var all := primary.List();
    StoredNamesUnique(primary.rules, primary.Contents());
    items := BuildSnapshot(o, all, primary.stored);
    SnapshotIsProper(o, primary.stored, items);
    ok := Apply(replica, o, items, answer, fails);
    var held := replica.List();
    StoredNamesUnique(replica.rules, replica.Contents());
    rebuilt := BuildSnapshot(o, held, replica.stored);
    if ok {
      RebuiltIsSame(o, primary.stored, items, replica.stored, rebuilt);
    }
  }
}
