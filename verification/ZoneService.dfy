/** Creating, changing and deleting zones: the repository and the snapshot that is served. */
module ZoneService {
  import opened Dns
  import opened ZoneRecords
  import opened Zones

  // ---------- stored zones and their listings ----------

  type Stored = map<int, Zone>

  ghost predicate Normalized(m: Stored) {
    forall k :: k in m ==> NormalizeZone(m[k]) == Some(m[k])
  }

  /** Every stored zone is filed under its identifier. */
  ghost predicate Filed(m: Stored) { forall k :: k in m ==> k > 0 && m[k].id == k }

  predicate DistinctIdentifiers(zs: seq<Zone>) {
    forall i, j :: 0 <= i < j < |zs| ==> zs[i].id != zs[j].id
  }

  /** Each zone of `zs` is stored in `m` under its identifier. */
  ghost predicate Within(zs: seq<Zone>, m: Stored) {
    forall i :: 0 <= i < |zs| ==> zs[i].id in m && m[zs[i].id] == zs[i]
  }

  ghost predicate AllIn(m: Stored, zs: seq<Zone>) {
    forall k :: k in m ==> m[k].id == k && m[k] in zs
  }

  /** `zs` holds every zone of `m` exactly once, in some order. */
  ghost predicate Lists(zs: seq<Zone>, m: Stored) {
    |zs| == |m| && DistinctIdentifiers(zs) && Within(zs, m) && AllIn(m, zs)
  }

  function WithoutIndex(zs: seq<Zone>, i: nat): seq<Zone>
    requires i < |zs|
  {
    zs[..i] + zs[i + 1..]
  }

  lemma OneLess(m: Stored, k: int)
    requires k in m
    ensures |m - {k}| == |m| - 1
  {
    assert m.Keys == (m - {k}).Keys + {k};
    assert |m.Keys| == |(m - {k}).Keys| + 1;
  }

  lemma WithoutWithin(zs: seq<Zone>, m: Stored, i: nat)
    requires Lists(zs, m) && i < |zs|
    ensures Within(WithoutIndex(zs, i), m - {zs[i].id}) && DistinctIdentifiers(WithoutIndex(zs, i))
  {
    var ys := WithoutIndex(zs, i);
    assert forall j :: 0 <= j < |ys| ==> ys[j] == if j < i then zs[j] else zs[j + 1];
  }

  lemma WithoutAllIn(zs: seq<Zone>, m: Stored, i: nat)
    requires Lists(zs, m) && i < |zs|
    ensures AllIn(m - {zs[i].id}, WithoutIndex(zs, i))
  {
    var ys, m' := WithoutIndex(zs, i), m - {zs[i].id};
    forall x | x in m' ensures m'[x].id == x && m'[x] in ys {
      assert m[x].id == x && m[x] in zs;
      var j :| 0 <= j < |zs| && zs[j] == m[x];
      assert ys[if j < i then j else j - 1] == zs[j];
    }
  }

  lemma WithoutIndexLists(zs: seq<Zone>, m: Stored, i: nat)
    requires Lists(zs, m) && i < |zs|
    ensures Lists(WithoutIndex(zs, i), m - {zs[i].id})
  {
    OneLess(m, zs[i].id);
    WithoutWithin(zs, m, i);
    WithoutAllIn(zs, m, i);
  }

  lemma ListsOneMore(zs: seq<Zone>, m: Stored, z: Zone)
    requires Lists(zs, m) && z.id !in m
    ensures Lists(zs + [z], m[z.id := z])
  {
    var ys, m' := zs + [z], m[z.id := z];
    assert m' - {z.id} == m;
    OneLess(m', z.id);
    assert Within(ys, m');
    forall k | k in m' ensures m'[k].id == k && m'[k] in ys {
      if k == z.id {
        assert ys[|zs|] == z;
      } else {
        assert m[k].id == k && m[k] in zs;
      }
    }
  }

  // ---------- the order of a listing is irrelevant ----------

  lemma {:induction false} TotalWithout(zs: seq<Zone>, i: nat)
    requires i < |zs|
    ensures TotalRecords(zs) == TotalRecords(WithoutIndex(zs, i)) + |zs[i].records|
    decreases |zs|
  {
    var n := |zs| - 1;
    if i == n {
      assert WithoutIndex(zs, i) == zs[..n];
    } else {
      TotalWithout(zs[..n], i);
      var ys := WithoutIndex(zs, i);
      assert ys[..|ys| - 1] == WithoutIndex(zs[..n], i) && ys[|ys| - 1] == zs[n];
    }
  }

  lemma {:induction false} SameTotal(zs: seq<Zone>, ys: seq<Zone>, m: Stored)
    requires Lists(zs, m) && Lists(ys, m)
    ensures TotalRecords(zs) == TotalRecords(ys)
    decreases |zs|
  {
    if zs != [] {
      var n := |zs| - 1;
      assert m[zs[n].id] in ys;
      var i :| 0 <= i < |ys| && ys[i] == zs[n];
      WithoutIndexLists(zs, m, n);
      WithoutIndexLists(ys, m, i);
      SameTotal(WithoutIndex(zs, n), WithoutIndex(ys, i), m - {zs[n].id});
      TotalWithout(zs, n);
      TotalWithout(ys, i);
    }
  }

  lemma {:induction false} SnapshotIds(zs: seq<Zone>, m: Stored)
    requires Lists(zs, m)
    ensures SnapshotOf(zs).byId == m
    decreases |zs|
  {
    if zs != [] {
      var n := |zs| - 1;
      WithoutIndexLists(zs, m, n);
      assert WithoutIndex(zs, n) == zs[..n];
      SnapshotIds(zs[..n], m - {zs[n].id});
      PutBackOne(m, zs[n]);
    }
  }

  lemma PutBackOne(m: Stored, z: Zone)
    requires z.id in m && m[z.id] == z
    ensures (m - {z.id})[z.id := z] == m
  {
  }

  lemma {:induction false} SnapshotView(zs: seq<Zone>, i: nat)
    requires DistinctNames(zs) && i < |zs|
    ensures zs[i].name.labels in SnapshotOf(zs).byName && SnapshotOf(zs).byName[zs[i].name.labels] == ViewOf(zs[i])
    decreases |zs|
  {
    var n := |zs| - 1;
    if i < n {
      assert DistinctNames(zs[..n]);
      SnapshotView(zs[..n], i);
      assert zs[i].name.labels != zs[n].name.labels;
    }
  }

  lemma {:induction false} SameViews(zs: seq<Zone>, ys: seq<Zone>, m: Stored)
    requires Lists(zs, m) && Lists(ys, m) && DistinctNames(zs) && DistinctNames(ys)
    ensures SnapshotOf(zs).byName == SnapshotOf(ys).byName
  {
    ViewsWithin(zs, ys, m);
    ViewsWithin(ys, zs, m);
  }

  lemma {:induction false} ViewsWithin(zs: seq<Zone>, ys: seq<Zone>, m: Stored)
    requires Lists(zs, m) && Lists(ys, m) && DistinctNames(zs) && DistinctNames(ys)
    ensures forall n :: n in SnapshotOf(zs).byName ==> n in SnapshotOf(ys).byName && SnapshotOf(ys).byName[n] == SnapshotOf(zs).byName[n]
  {
    forall n | n in SnapshotOf(zs).byName
      ensures n in SnapshotOf(ys).byName && SnapshotOf(ys).byName[n] == SnapshotOf(zs).byName[n]
    {
      SnapshotNames(zs, n);
      var i :| 0 <= i < |zs| && zs[i].name.labels == n;
      SnapshotView(zs, i);
      assert m[zs[i].id] in ys;
      var j :| 0 <= j < |ys| && ys[j] == zs[i];
      SnapshotView(ys, j);
    }
  }

  lemma {:induction false} SameSound(zs: seq<Zone>, ys: seq<Zone>, m: Stored)
    requires Lists(zs, m) && Lists(ys, m) && Sound(zs)
    ensures Sound(ys)
  {
    SameTotal(zs, ys, m);
    forall i | 0 <= i < |ys| ensures GoodZone(ys[i]) {
      assert m[ys[i].id] in zs;
      var a :| 0 <= a < |zs| && zs[a] == ys[i];
    }
  }

  lemma NormalListing(zs: seq<Zone>, m: Stored)
    requires Lists(zs, m) && Normalized(m)
    ensures Normalizable(zs) && NormalizeAll(zs) == zs
  {
    forall i | 0 <= i < |zs| ensures NormalizeZone(zs[i]) == Some(zs[i]) {
      assert zs[i].id in m && m[zs[i].id] == zs[i];
    }
  }

  /** However the stored zones are listed, they compile to the same snapshot. */
  lemma CompileAnyOrder(zs: seq<Zone>, ys: seq<Zone>, m: Stored)
    requires Normalized(m) && Lists(zs, m) && Lists(ys, m) && CompileSpec(zs).Some?
    ensures CompileSpec(ys) == CompileSpec(zs)
  {
    NormalListing(zs, m);
    NormalListing(ys, m);
    SameSound(zs, ys, m);
    SnapshotIds(zs, m);
    SnapshotIds(ys, m);
    SameViews(zs, ys, m);
  }

  // ---------- identifiers assigned by the repository ----------

  /** What the repository does with a zone it is asked to save. */
  datatype Answer = Fails | Assigns(zone: int, records: seq<int>)

  function Renumbered(rs: seq<Record>, ids: seq<int>): seq<Record>
    requires |rs| == |ids|
  {
    seq(|rs|, i requires 0 <= i < |rs| => rs[i].(id := ids[i]))
  }

  function Assigned(z: Zone, a: Answer): Zone
    requires a.Assigns? && |a.records| == |z.records|
  {
    z.(id := a.zone, records := Renumbered(z.records, a.records))
  }

  /** Saving may only assign identifiers: those given are kept, new ones are unused. */
  ghost predicate Contract(m: Stored, z: Zone, a: Answer) {
    a.Assigns? ==>
      && |a.records| == |z.records|
      && a.zone > 0 && (if z.id != 0 then a.zone == z.id else a.zone !in m)
      && (forall i :: 0 <= i < |z.records| && z.records[i].id != 0 ==> a.records[i] == z.records[i].id)
      && ValidIds(a.records)
  }

  lemma RenumberedRrs(rs: seq<Record>, ids: seq<int>)
    requires |rs| == |ids|
    ensures Rrs(Renumbered(rs, ids)) == Rrs(rs) && Ids(Renumbered(rs, ids)) == ids
  {
    forall i | 0 <= i < |rs| ensures Rr(rs[i].(id := ids[i])) == Rr(rs[i]) {
    }
    assert Ids(Renumbered(rs, ids)) == ids;
  }

  lemma AssignedView(z: Zone, a: Answer)
    requires a.Assigns? && |a.records| == |z.records|
    ensures ViewOf(Assigned(z, a)) == ViewOf(z).(zone := Assigned(z, a))
  {
    RenumberedRrs(z.records, a.records);
  }

  lemma AssignedGood(z: Zone, a: Answer)
    requires a.Assigns? && |a.records| == |z.records| && GoodZone(z) && ValidIds(a.records)
    ensures GoodZone(Assigned(z, a))
  {
    RenumberedRrs(z.records, a.records);
  }

  lemma NormalRecordRenumbered(zone: Name, r: Record, id: int)
    requires NormalizeRecord(zone, r) == Some(r)
    ensures NormalizeRecord(zone, r.(id := id)) == Some(r.(id := id))
  {
    PermittedAnyId(zone, r, id);
    var q := r.(id := id);
    assert q.(name := r.name, data := r.data) == q && r.(name := r.name, data := r.data) == r;
  }

  lemma PermittedAnyId(zone: Name, r: Record, id: int)
    ensures Permitted(zone, r.(id := id)) == Permitted(zone, r)
  {
  }

  lemma AssignedNormal(z: Zone, a: Answer)
    requires a.Assigns? && |a.records| == |z.records| && NormalizeZone(z) == Some(z)
    ensures NormalizeZone(Assigned(z, a)) == Some(Assigned(z, a))
  {
    var out := Assigned(z, a);
    var zone := z.name.labels;
    forall i | 0 <= i < |z.records| ensures NormalizeRecord(zone, out.records[i]) == Some(out.records[i]) {
      assert NormalizeRecords(zone, z.records)[i] == z.records[i];
      NormalRecordRenumbered(zone, z.records[i], a.records[i]);
    }
    assert NormalizeRecords(zone, out.records) == out.records;
  }

  // ---------- publishing ----------

  /** The same records under the same names, whatever zone data accompanies them. */
  ghost predicate SameRecords(t: Views, u: Views) {
    t.Keys == u.Keys && forall n :: n in t ==> t[n].records == u[n].records
  }

  lemma {:induction false} SameAlias(t: Views, u: Views, n: Name, at: Name)
    requires SameRecords(t, u)
    ensures Closest(t, at).Some? <==> Closest(u, at).Some?
    ensures Closest(t, at).Some? ==> Closest(t, at).value.records == Closest(u, at).value.records
    decreases |at|
  {
    if at != [] && at !in t {
      SameAlias(t, u, n, at[1..]);
    }
  }

  lemma {:induction false} SameEnds(t: Views, u: Views, n: Name, k: nat)
    requires SameRecords(t, u)
    ensures Ends(t, n, k) == Ends(u, n, k)
    decreases k
  {
    SameAlias(t, u, n, n);
    if k > 0 && AliasAt(t, n).Some? {
      SameEnds(t, u, AliasAt(t, n).value, k - 1);
    }
  }

  lemma SameLoopFree(t: Views, u: Views)
    requires SameRecords(t, u) && LoopFree(t)
    ensures LoopFree(u)
  {
    forall z, n | z in u && n in u[z].records && FirstAlias(u[z].records[n]).Some? ensures Ends(u, n, MAX_NAMES) {
      assert z in t && t[z].records == u[z].records;
      SameEnds(t, u, n, MAX_NAMES);
    }
  }

  /** The compiled snapshot with the saved form of one zone. */
  function Published(next: Snapshot, id: int, saved: Zone): Snapshot
    requires saved.name.labels in next.byName
  {
    var name := saved.name.labels;
    Snapshot((next.byId - {id})[saved.id := saved], next.byName[name := next.byName[name].(zone := saved)])
  }

  lemma NormalizeAllOneMore(rest: seq<Zone>, z: Zone, m: Stored)
    requires Lists(rest, m) && Normalized(m) && NormalizeZone(z).Some?
    ensures Normalizable(rest + [z]) && NormalizeAll(rest + [z]) == rest + [NormalizeZone(z).value]
  {
    NormalListing(rest, m);
    var all := rest + [z];
    forall i | 0 <= i < |all| ensures NormalizeZone(all[i]) == Some((rest + [NormalizeZone(z).value])[i]) {
      if i < |rest| {
        assert NormalizeZone(rest[i]) == Some(NormalizeAll(rest)[i]);
      }
    }
  }

  /** What compiling the other zones and a new one gives, said in terms of the new one. */
  lemma CompiledWith(rest: seq<Zone>, z: Zone, m: Stored)
    requires Lists(rest, m) && Normalized(m) && CompileSpec(rest + [z]).Some?
    ensures NormalizeZone(z).Some?
    ensures var n, s := NormalizeZone(z).value, SnapshotOf(rest);
            && Sound(rest + [n]) && |rest| + 1 <= MAX_ZONES
            && CompileSpec(rest + [z]).value == Snapshot(s.byId[n.id := n], s.byName[n.name.labels := ViewOf(n)])
            && LoopFree(CompileSpec(rest + [z]).value.byName)
  {
    assert NormalizeZone((rest + [z])[|rest|]).Some?;
    NormalizeAllOneMore(rest, z, m);
    SnapshotOneMore(rest, NormalizeZone(z).value);
  }

  lemma SoundAssigned(rest: seq<Zone>, n: Zone, a: Answer)
    requires a.Assigns? && |a.records| == |n.records| && ValidIds(a.records) && Sound(rest + [n])
    ensures Sound(rest + [Assigned(n, a)])
  {
    SoundPrefix(rest + [n], |rest|);
    assert (rest + [n])[..|rest|] == rest;
    SoundOneMore(rest, n);
    SoundOneMore(rest, Assigned(n, a));
    AssignedGood(n, a);
  }

  /** Swapping in the saved zone gives what compiling the stored zones would give. */
  lemma PublishedIsCompiled(rest: seq<Zone>, z: Zone, m: Stored, a: Answer)
    requires Lists(rest, m) && Normalized(m) && z.id !in m && CompileSpec(rest + [z]).Some?
    requires a.Assigns? && |a.records| == |z.records| && ValidIds(a.records)
    ensures NormalizeZone(z).Some? && |NormalizeZone(z).value.records| == |z.records|
    ensures var next, n := CompileSpec(rest + [z]).value, NormalizeZone(z).value;
            && z.id in next.byId && next.byId[z.id] == n && n.name.labels in next.byName
            && CompileSpec(rest + [Assigned(n, a)]) == Some(Published(next, z.id, Assigned(n, a)))
            && NormalizeZone(Assigned(n, a)) == Some(Assigned(n, a))
  {
    CompiledWith(rest, z, m);
    NormalizeZoneIdempotent(z);
    var n := NormalizeZone(z).value;
    var saved := Assigned(n, a);
    AssignedNormal(n, a);
    SoundAssigned(rest, n, a);
    NormalizeAllOneMore(rest, saved, m);
    SnapshotOneMore(rest, saved);
    SnapshotIds(rest, m);
    AssignedView(n, a);
    ReplacedViews(SnapshotOf(rest), n, saved, m);
  }

  lemma ReplacedViews(s: Snapshot, n: Zone, saved: Zone, m: Stored)
    requires s.byId == m && n.id !in m && saved.name == n.name && ViewOf(saved) == ViewOf(n).(zone := saved)
    requires LoopFree(s.byName[n.name.labels := ViewOf(n)])
    ensures var next := Snapshot(s.byId[n.id := n], s.byName[n.name.labels := ViewOf(n)]);
            Snapshot(s.byId[saved.id := saved], s.byName[saved.name.labels := ViewOf(saved)]) == Published(next, n.id, saved)
    ensures LoopFree(s.byName[saved.name.labels := ViewOf(saved)])
  {
    var name := n.name.labels;
    var t, u := s.byName[name := ViewOf(n)], s.byName[name := ViewOf(saved)];
    assert SameRecords(t, u);
    SameLoopFree(t, u);
    assert (s.byId[n.id := n] - {n.id}) == s.byId;
    assert t[name := t[name].(zone := saved)] == u;
  }

  // ---------- what the service needs of the compiler ----------

  /** How zones are compiled, and which zones compiling leaves as they are. */
  datatype Rules = Rules(compile: seq<Zone> -> Option<Snapshot>, normal: Zone -> bool)

  ghost predicate AllNormal(r: Rules, m: Stored) { forall k :: k in m ==> r.normal(m[k]) }

  ghost predicate UniqueNames(m: Stored) {
    forall k, l :: k in m && l in m && k != l ==> m[k].name != m[l].name
  }

  /** The order of a listing does not matter, the result files the zones listed, and no
      two of them have one name. */
  ghost predicate OrderLaw(r: Rules, m: Stored, zs: seq<Zone>, ys: seq<Zone>) {
    Filed(m) && AllNormal(r, m) && Lists(zs, m) && Lists(ys, m) ==>
      && r.compile(zs) == r.compile(ys)
      && (r.compile(zs).Some? ==> r.compile(zs).value.byId == m && UniqueNames(m))
  }

  ghost predicate BesideLaw(r: Rules, m: Stored, z: Zone, zs: seq<Zone>, ys: seq<Zone>) {
    Filed(m) && AllNormal(r, m) && Lists(zs, m) && Lists(ys, m) && z.id !in m ==>
      r.compile(zs + [z]) == r.compile(ys + [z])
  }

  /** A zone that compiled beside others still does once the repository has numbered it,
      and the snapshot changes in no other way. */
  ghost predicate SavingLaw(r: Rules, m: Stored, z: Zone, rest: seq<Zone>, a: Answer) {
    Filed(m) && AllNormal(r, m) && Lists(rest, m) && z.id !in m && r.compile(rest + [z]).Some? ==>
      var next := r.compile(rest + [z]).value;
      && z.id in next.byId && |next.byId[z.id].records| == |z.records| && next.byId[z.id].revision == z.revision
      && next.byId[z.id].name.labels in next.byName && (r.normal(z) ==> next.byId[z.id] == z)
      && (a.Assigns? && |a.records| == |z.records| && ValidIds(a.records) ==> NumberedCompiles(r, next, z.id, rest, a))
  }

  ghost predicate NumberedCompiles(r: Rules, next: Snapshot, id: int, rest: seq<Zone>, a: Answer)
    requires id in next.byId && a.Assigns? && |a.records| == |next.byId[id].records|
    requires next.byId[id].name.labels in next.byName
  {
    var saved := Assigned(next.byId[id], a);
    r.normal(saved) && r.compile(rest + [saved]) == Some(Published(next, id, saved))
  }

  /** Identifier and revision have no part in what is normal. */
  ghost predicate NormalLaw(r: Rules, z: Zone, id: int, revision: U32) {
    r.normal(z) ==> r.normal(z.(id := id, revision := revision))
  }

  ghost predicate Compiler(r: Rules) {
    && (forall z, id, revision :: NormalLaw(r, z, id, revision))
    && (forall m, zs, ys :: OrderLaw(r, m, zs, ys))
    && (forall m, z, zs, ys :: BesideLaw(r, m, z, zs, ys))
    && (forall m, z, rest, a :: SavingLaw(r, m, z, rest, a))
  }

  // ---------- the zone compiler meets it ----------

  predicate IsNormal(z: Zone) { NormalizeZone(z) == Some(z) }

  function ZoneRules(): Rules { Rules(CompileSpec, IsNormal) }

  lemma CompiledIds(zs: seq<Zone>, m: Stored)
    requires Lists(zs, m) && Normalized(m) && CompileSpec(zs).Some?
    ensures CompileSpec(zs).value.byId == m
  {
    NormalListing(zs, m);
    SnapshotIds(zs, m);
  }

  lemma CompiledNames(zs: seq<Zone>, m: Stored)
    requires Lists(zs, m) && Normalized(m) && CompileSpec(zs).Some?
    ensures UniqueNames(m)
  {
    NormalListing(zs, m);
    assert DistinctNames(zs);
    forall k, l | k in m && l in m && k != l ensures m[k].name != m[l].name {
      assert m[k].id == k && m[k] in zs && m[l].id == l && m[l] in zs;
      var i :| 0 <= i < |zs| && zs[i] == m[k];
      var j :| 0 <= j < |zs| && zs[j] == m[l];
      assert i != j;
    }
  }

  lemma ZoneOrder(m: Stored, zs: seq<Zone>, ys: seq<Zone>)
    ensures OrderLaw(ZoneRules(), m, zs, ys)
  {
    if Normalized(m) && Lists(zs, m) && Lists(ys, m) {
      if CompileSpec(zs).Some? {
        CompileAnyOrder(zs, ys, m);
        CompiledIds(zs, m);
        CompiledNames(zs, m);
      } else if CompileSpec(ys).Some? {
        CompileAnyOrder(ys, zs, m);
      }
    }
  }

  lemma CompileNormalized(rest: seq<Zone>, z: Zone, m: Stored)
    requires Normalized(m) && Lists(rest, m) && NormalizeZone(z).Some?
    ensures CompileSpec(rest + [z]) == CompileSpec(rest + [NormalizeZone(z).value])
  {
    NormalizeZoneIdempotent(z);
    NormalizeAllOneMore(rest, z, m);
    NormalizeAllOneMore(rest, NormalizeZone(z).value, m);
  }

  lemma ReadableBeside(zs: seq<Zone>, ys: seq<Zone>, m: Stored, z: Zone)
    requires Normalized(m) && Lists(zs, m) && Lists(ys, m) && z.id !in m && NormalizeZone(z).Some?
    ensures CompileSpec(zs + [z]) == CompileSpec(ys + [z])
  {
    var n := NormalizeZone(z).value;
    NormalizeZoneIdempotent(z);
    CompileNormalized(zs, z, m);
    CompileNormalized(ys, z, m);
    ListsOneMore(zs, m, n);
    ListsOneMore(ys, m, n);
    if CompileSpec(zs + [n]).Some? {
      CompileAnyOrder(zs + [n], ys + [n], m[n.id := n]);
    } else if CompileSpec(ys + [n]).Some? {
      CompileAnyOrder(ys + [n], zs + [n], m[n.id := n]);
    }
  }

  lemma ZoneBeside(m: Stored, z: Zone, zs: seq<Zone>, ys: seq<Zone>)
    ensures BesideLaw(ZoneRules(), m, z, zs, ys)
  {
    if Normalized(m) && Lists(zs, m) && Lists(ys, m) && z.id !in m {
      if NormalizeZone(z).None? {
      } else {
        ReadableBeside(zs, ys, m, z);
      }
    }
  }

  lemma ZoneSaving(m: Stored, z: Zone, rest: seq<Zone>, a: Answer)
    ensures SavingLaw(ZoneRules(), m, z, rest, a)
  {
    if Normalized(m) && Lists(rest, m) && z.id !in m && CompileSpec(rest + [z]).Some? {
      CompiledWith(rest, z, m);
      if a.Assigns? && |a.records| == |z.records| && ValidIds(a.records) {
        PublishedIsCompiled(rest, z, m, a);
      }
    }
  }

  /** The zone compiler is a compiler in this sense. */
  lemma ZoneCompiler()
    ensures Compiler(ZoneRules())
  {
    forall z, id, revision ensures NormalLaw(ZoneRules(), z, id, revision) {
    }
    forall m, zs, ys ensures OrderLaw(ZoneRules(), m, zs, ys) {
      ZoneOrder(m, zs, ys);
    }
    forall m, z, zs, ys ensures BesideLaw(ZoneRules(), m, z, zs, ys) {
      ZoneBeside(m, z, zs, ys);
    }
    forall m, z, rest, a ensures SavingLaw(ZoneRules(), m, z, rest, a) {
      ZoneSaving(m, z, rest, a);
    }
  }

  // ---------- the service ----------

  lemma SomeKey(keys: set<int>)
    ensures keys == {} || exists k :: k in keys
  {
    if forall k :: k !in keys {
      assert keys == {};
    }
  }

  /** Some listing of the stored zones. */
  ghost function Listing(m: Stored): seq<Zone> {
    if m.Keys == {} then []
    else
      SomeKey(m.Keys);
      var k :| k in m.Keys;
      OneLess(m, k);
      Listing(m - {k}) + [m[k]]
  }

  lemma {:induction false} ListingLists(m: Stored)
    requires Filed(m)
    ensures Lists(Listing(m), m)
    decreases |m|
  {
    if m.Keys != {} {
      SomeKey(m.Keys);
      var k :| k in m.Keys && Listing(m) == Listing(m - {k}) + [m[k]];
      OneLess(m, k);
      ListingLists(m - {k});
      PutBackOne(m, m[k]);
      ListsOneMore(Listing(m - {k}), m - {k}, m[k]);
    }
  }

  datatype State = State(stored: Stored, served: Snapshot)

  datatype Outcome = Saved(zone: Zone) | Deleted | NotFound | Conflict | Invalid | RepositoryFailed

  datatype Result = Result(state: State, outcome: Outcome)

  /** What is served is what the stored zones compile to. */
  ghost predicate Coherent(r: Rules, s: State) {
    && Filed(s.stored) && AllNormal(r, s.stored)
    && s.served.byId == s.stored && r.compile(Listing(s.stored)) == Some(s.served)
  }

  /** The promise in full: any listing of the stored zones compiles to the snapshot. */
  lemma ServedIsCompiled(r: Rules, s: State, zs: seq<Zone>)
    requires Compiler(r) && Coherent(r, s) && Lists(zs, s.stored)
    ensures r.compile(zs) == Some(s.served)
  {
    ListingLists(s.stored);
    AnyOrder(r, s.stored, Listing(s.stored), zs);
  }

  lemma CoherentFrom(r: Rules, s: State, zs: seq<Zone>)
    requires Compiler(r) && Filed(s.stored) && AllNormal(r, s.stored) && Lists(zs, s.stored) && r.compile(zs) == Some(s.served)
    ensures Coherent(r, s)
  {
    ListingLists(s.stored);
    assert OrderLaw(r, s.stored, zs, Listing(s.stored));
  }

  predicate RevisionMatches(m: Stored, id: int, expected: U32) { id in m && m[id].revision == expected }

  /** Saving a zone: the others and it are compiled, then it is stored, then served. */
  ghost function Save(r: Rules, s: State, z: Zone, expected: U32, a: Answer): Result
    requires Compiler(r) && Coherent(r, s) && Contract(s.stored, z, a)
  {
    var m := s.stored - {z.id};
    var next := r.compile(Listing(m) + [z]);
    if next.None? then Result(s, Invalid)
    else if expected != 0 && !RevisionMatches(s.stored, z.id, expected) then Result(s, Conflict)
    else if a.Fails? then Result(s, RepositoryFailed)
    else
      NumberedFits(r, m, z, a);
      var saved := Assigned(next.value.byId[z.id], a);
      Result(State(s.stored[saved.id := saved], Published(next.value, z.id, saved)), Saved(saved))
  }

  /** What saving may change: the zone asked for, under its old or an unused identifier. */
  ghost predicate SavedOnly(s: State, z: Zone, r: Result) {
    match r.outcome
    case Saved(saved) =>
      && saved.id > 0 && saved.revision == z.revision && r.state.stored == s.stored[saved.id := saved]
      && (if z.id == 0 then saved.id !in s.stored else saved.id == z.id)
    case _ => r.state == s && !r.outcome.Deleted?
  }

  /** A saved zone compiles beside the others to what is then served. */
  ghost predicate Fits(r: Rules, m: Stored, saved: Zone, served: Snapshot)
    requires Filed(m)
  {
    saved.id > 0 && saved.id !in m && r.normal(saved) && r.compile(Listing(m) + [saved]) == Some(served)
  }

  lemma FitsIsCoherent(r: Rules, m: Stored, saved: Zone, served: Snapshot)
    requires Compiler(r) && Filed(m) && AllNormal(r, m) && Fits(r, m, saved, served)
    ensures Coherent(r, State(m[saved.id := saved], served))
  {
    ListingLists(m);
    ListsOneMore(Listing(m), m, saved);
    CoherentFrom(r, State(m[saved.id := saved], served), Listing(m) + [saved]);
  }

  lemma NumberedFits(r: Rules, m: Stored, z: Zone, a: Answer)
    requires Compiler(r) && Filed(m) && AllNormal(r, m) && z.id !in m && r.compile(Listing(m) + [z]).Some?
    requires a.Assigns? && |a.records| == |z.records| && ValidIds(a.records) && a.zone > 0 && a.zone !in m
    ensures var next := r.compile(Listing(m) + [z]).value;
            && z.id in next.byId && |next.byId[z.id].records| == |z.records| && next.byId[z.id].revision == z.revision
            && next.byId[z.id].name.labels in next.byName
            && Fits(r, m, Assigned(next.byId[z.id], a), Published(next, z.id, Assigned(next.byId[z.id], a)))
  {
    ListingLists(m);
    assert SavingLaw(r, m, z, Listing(m), a);
  }

  lemma SavedFits(r: Rules, s: State, z: Zone, expected: U32, a: Answer)
    requires Compiler(r) && Coherent(r, s) && Contract(s.stored, z, a) && Save(r, s, z, expected, a).outcome.Saved?
    ensures var result := Save(r, s, z, expected, a);
            Fits(r, s.stored - {z.id}, result.outcome.zone, result.state.served)
  {
    Fewer(r, s.stored, z.id);
    NumberedFits(r, s.stored - {z.id}, z, a);
  }

  lemma SaveIsSavedOnly(r: Rules, s: State, z: Zone, expected: U32, a: Answer)
    requires Compiler(r) && Coherent(r, s) && Contract(s.stored, z, a)
    ensures SavedOnly(s, z, Save(r, s, z, expected, a))
  {
    if Save(r, s, z, expected, a).outcome.Saved? {
      Fewer(r, s.stored, z.id);
      NumberedFits(r, s.stored - {z.id}, z, a);
    }
  }

  lemma SaveKeepsCoherent(r: Rules, s: State, z: Zone, expected: U32, a: Answer)
    requires Compiler(r) && Coherent(r, s) && Contract(s.stored, z, a)
    ensures Coherent(r, Save(r, s, z, expected, a).state) && SavedOnly(s, z, Save(r, s, z, expected, a))
  {
    SaveIsSavedOnly(r, s, z, expected, a);
    var result := Save(r, s, z, expected, a);
    if result.outcome.Saved? {
      SavedFits(r, s, z, expected, a);
      Fewer(r, s.stored, z.id);
      FitsIsCoherent(r, s.stored - {z.id}, result.outcome.zone, result.state.served);
    }
  }

  predicate NewRecordsOnly(rs: seq<Record>) { forall i :: 0 <= i < |rs| ==> rs[i].id == 0 }

  predicate OwnRecords(mine: seq<Record>, rs: seq<Record>) {
    forall i :: 0 <= i < |rs| && rs[i].id != 0 ==> exists j :: 0 <= j < |mine| && mine[j].id == rs[i].id
  }

  const MAX_REVISION: U32 := 0xFFFF_FFFF

  datatype Event =
    | CreateZone(z: Zone, answer: Answer)
    | UpdateZone(id: int, revision: U32, z: Zone, answer: Answer)
    | DeleteZone(id: int, revision: U32, fails: bool)

  /** The repository behaves as promised for what it is asked to save. */
  ghost predicate Allowed(m: Stored, e: Event) {
    match e
    case CreateZone(z, a) => Contract(m, z, a)
    case UpdateZone(id, revision, z, a) => Contract(m, z.(id := id), a)
    case DeleteZone(_, _, _) => true
  }

  ghost function Create(r: Rules, s: State, z: Zone, a: Answer): Result
    requires Compiler(r) && Coherent(r, s) && Contract(s.stored, z, a)
  {
    if z.id != 0 || z.revision != 0 || !NewRecordsOnly(z.records) then Result(s, Invalid)
    else Save(r, s, z.(revision := 1), 0, a)
  }

  ghost function Update(r: Rules, s: State, id: int, revision: U32, z: Zone, a: Answer): Result
    requires Compiler(r) && Coherent(r, s) && Contract(s.stored, z.(id := id), a)
  {
    if id !in s.served.byId then Result(s, NotFound)
    else if s.served.byId[id].revision != revision || revision == MAX_REVISION then Result(s, Conflict)
    else if !OwnRecords(s.served.byId[id].records, z.records) then Result(s, Invalid)
    else Save(r, s, z.(id := id, revision := revision + 1), revision, a)
  }

  ghost function Delete(r: Rules, s: State, id: int, revision: U32, fails: bool): Result
    requires Compiler(r) && Coherent(r, s)
  {
    if id !in s.served.byId then Result(s, NotFound)
    else if s.served.byId[id].revision != revision then Result(s, Conflict)
    else
      var next := r.compile(Listing(s.stored - {id}));
      if next.None? then Result(s, Invalid)
      else if fails then Result(s, RepositoryFailed)
      else Result(State(s.stored - {id}, next.value), Deleted)
  }

  ghost function Perform(r: Rules, s: State, e: Event): Result
    requires Compiler(r) && Coherent(r, s) && Allowed(s.stored, e)
  {
    match e
    case CreateZone(z, a) => Create(r, s, z, a)
    case UpdateZone(id, revision, z, a) => Update(r, s, id, revision, z, a)
    case DeleteZone(id, revision, fails) => Delete(r, s, id, revision, fails)
  }

  lemma DeleteKeepsCoherent(r: Rules, s: State, id: int, revision: U32, fails: bool)
    requires Compiler(r) && Coherent(r, s)
    ensures Coherent(r, Delete(r, s, id, revision, fails).state)
  {
    var result := Delete(r, s, id, revision, fails);
    if result.outcome.Deleted? {
      Fewer(r, s.stored, id);
      ListingLists(s.stored - {id});
      CoherentFrom(r, result.state, Listing(s.stored - {id}));
    }
  }

  /** What an operation may change: nothing unless it succeeds; a new zone appears at
      revision 1; a zone changes only by an update based on its current revision, which it
      then follows directly; it goes only by a deletion that names its current revision. */
  ghost predicate Orderly(s: State, e: Event, after: Result) {
    match after.outcome
    case Saved(zone) =>
      && after.state.stored == s.stored[zone.id := zone]
      && (match e
          case CreateZone(_, _) => zone.id !in s.stored && zone.revision == 1
          case UpdateZone(id, revision, _, _) =>
            zone.id == id && RevisionMatches(s.stored, id, revision) && zone.revision == revision + 1
          case DeleteZone(_, _, _) => false)
    case Deleted => e.DeleteZone? && RevisionMatches(s.stored, e.id, e.revision) && after.state.stored == s.stored - {e.id}
    case _ => after.state == s
  }

  lemma CreateKeepsCoherent(r: Rules, s: State, z: Zone, a: Answer)
    requires Compiler(r) && Coherent(r, s) && Contract(s.stored, z, a)
    ensures Coherent(r, Create(r, s, z, a).state) && Orderly(s, CreateZone(z, a), Create(r, s, z, a))
  {
    if z.id == 0 && z.revision == 0 && NewRecordsOnly(z.records) {
      SaveKeepsCoherent(r, s, z.(revision := 1), 0, a);
    }
  }

  lemma UpdateKeepsCoherent(r: Rules, s: State, id: int, revision: U32, z: Zone, a: Answer)
    requires Compiler(r) && Coherent(r, s) && Contract(s.stored, z.(id := id), a)
    ensures Coherent(r, Update(r, s, id, revision, z, a).state)
    ensures Orderly(s, UpdateZone(id, revision, z, a), Update(r, s, id, revision, z, a))
  {
    if id in s.stored && s.stored[id].revision == revision < MAX_REVISION && OwnRecords(s.stored[id].records, z.records) {
      SaveKeepsCoherent(r, s, z.(id := id, revision := revision + 1), revision, a);
    }
  }

  /** Every operation keeps what is served equal to what is stored, and is orderly. */
  lemma PerformKeepsCoherent(r: Rules, s: State, e: Event)
    requires Compiler(r) && Coherent(r, s) && Allowed(s.stored, e)
    ensures Coherent(r, Perform(r, s, e).state) && Orderly(s, e, Perform(r, s, e))
  {
    match e
    case CreateZone(z, a) => CreateKeepsCoherent(r, s, z, a);
    case UpdateZone(id, revision, z, a) => UpdateKeepsCoherent(r, s, id, revision, z, a);
    case DeleteZone(id, revision, fails) => DeleteKeepsCoherent(r, s, id, revision, fails);
  }

  // ---------- what a saved zone holds ----------

  /** A zone's data apart from the numbers the service and the repository give it. */
  ghost predicate SameContent(a: Zone, b: Zone) {
    && a.name == b.name && a.primary == b.primary && a.contact == b.contact && a.secondary == b.secondary
    && |a.records| == |b.records|
    && forall i :: 0 <= i < |a.records| ==> a.records[i] == b.records[i].(id := a.records[i].id)
  }

  lemma NormalIsKept(r: Rules, m: Stored, z: Zone, a: Answer)
    requires Compiler(r) && Filed(m) && AllNormal(r, m) && z.id !in m && r.compile(Listing(m) + [z]).Some? && r.normal(z)
    ensures z.id in r.compile(Listing(m) + [z]).value.byId && r.compile(Listing(m) + [z]).value.byId[z.id] == z
  {
    ListingLists(m);
    assert SavingLaw(r, m, z, Listing(m), a);
  }

  /** A zone already in normal form is saved as it is. */
  lemma SaveKeepsContent(r: Rules, s: State, z: Zone, expected: U32, a: Answer)
    requires Compiler(r) && Coherent(r, s) && Contract(s.stored, z, a) && r.normal(z)
    ensures Save(r, s, z, expected, a).outcome.Saved? ==> SameContent(Save(r, s, z, expected, a).outcome.zone, z)
  {
    if Save(r, s, z, expected, a).outcome.Saved? {
      Fewer(r, s.stored, z.id);
      NormalIsKept(r, s.stored - {z.id}, z, a);
    }
  }

  lemma CreateKeepsContent(r: Rules, s: State, z: Zone, a: Answer)
    requires Compiler(r) && Coherent(r, s) && Contract(s.stored, z, a) && r.normal(z)
    ensures Create(r, s, z, a).outcome.Saved? ==> SameContent(Create(r, s, z, a).outcome.zone, z)
  {
    if z.id == 0 && z.revision == 0 && NewRecordsOnly(z.records) {
      var q := z.(revision := 1);
      assert NormalLaw(r, z, z.id, 1);
      assert z.(id := z.id, revision := 1) == q;
      SaveKeepsContent(r, s, q, 0, a);
    }
  }

  lemma UpdateKeepsContent(r: Rules, s: State, id: int, revision: U32, z: Zone, a: Answer)
    requires Compiler(r) && Coherent(r, s) && Contract(s.stored, z.(id := id), a) && r.normal(z)
    ensures Update(r, s, id, revision, z, a).outcome.Saved? ==> SameContent(Update(r, s, id, revision, z, a).outcome.zone, z)
  {
    if id in s.stored && s.stored[id].revision == revision < MAX_REVISION && OwnRecords(s.stored[id].records, z.records) {
      assert NormalLaw(r, z, id, revision + 1);
      SaveKeepsContent(r, s, z.(id := id, revision := revision + 1), revision, a);
    }
  }

  lemma StoredNamesUnique(r: Rules, s: State)
    requires Compiler(r) && Coherent(r, s)
    ensures UniqueNames(s.stored)
  {
    ListingLists(s.stored);
    assert OrderLaw(r, s.stored, Listing(s.stored), Listing(s.stored));
  }

  // ---------- runs ----------

  /** States and outcomes of a service whose operations come in any order. */
  ghost predicate Run(r: Rules, ss: seq<State>, es: seq<Event>, os: seq<Outcome>) {
    && |ss| == |es| + 1 == |os| + 1 && Coherent(r, ss[0])
    && forall i :: 0 <= i < |es| ==> Performed(r, ss[i], es[i], ss[i + 1], os[i])
  }

  ghost predicate Performed(r: Rules, s: State, e: Event, s': State, o: Outcome) {
    Compiler(r) && Coherent(r, s) ==> Allowed(s.stored, e) && Perform(r, s, e) == Result(s', o)
  }

  lemma PerformedKeeps(r: Rules, s: State, e: Event, s': State, o: Outcome)
    requires Compiler(r) && Coherent(r, s) && Performed(r, s, e, s', o)
    ensures Coherent(r, s') && Orderly(s, e, Result(s', o))
  {
    PerformKeepsCoherent(r, s, e);
  }

  /** After every operation of every run the snapshot is what the stored zones compile to;
      operations that fail change nothing. */
  lemma {:induction false} AlwaysCoherent(r: Rules, ss: seq<State>, es: seq<Event>, os: seq<Outcome>, i: nat)
    requires Compiler(r) && Run(r, ss, es, os) && i < |ss|
    ensures Coherent(r, ss[i])
    ensures i < |es| ==> Orderly(ss[i], es[i], Result(ss[i + 1], os[i]))
  {
    if i > 0 {
      AlwaysCoherent(r, ss, es, os, i - 1);
      assert Performed(r, ss[i - 1], es[i - 1], ss[i], os[i - 1]);
      PerformedKeeps(r, ss[i - 1], es[i - 1], ss[i], os[i - 1]);
    }
    if i < |es| {
      assert Performed(r, ss[i], es[i], ss[i + 1], os[i]);
      PerformedKeeps(r, ss[i], es[i], ss[i + 1], os[i]);
    }
  }

  predicate Updated(e: Event, o: Outcome, id: int) { e.UpdateZone? && e.id == id && o.Saved? }

  /** How often a zone was updated successfully between two points of a run. */
  function UpdateCount(es: seq<Event>, os: seq<Outcome>, id: int, lo: nat, hi: nat): nat
    requires lo <= hi && hi <= |es| && |es| == |os|
    decreases hi
  {
    if lo == hi then 0
    else UpdateCount(es, os, id, lo, hi - 1) + One(Updated(es[hi - 1], os[hi - 1], id))
  }

  function One(b: bool): nat { if b then 1 else 0 }

  lemma RevisionAt(r: Rules, ss: seq<State>, es: seq<Event>, os: seq<Outcome>, id: int, i: nat)
    requires Compiler(r) && Run(r, ss, es, os) && i < |es| && id in ss[i + 1].stored
    ensures id !in ss[i].stored ==> ss[i + 1].stored[id].revision == 1
    ensures id in ss[i].stored ==> ss[i + 1].stored[id].revision == ss[i].stored[id].revision + One(Updated(es[i], os[i], id))
  {
    AlwaysCoherent(r, ss, es, os, i);
  }

  /** In every run, whoever issues the operations, a zone's revisions from its creation
      on are 1, 2, 3, ...: one more for each update that succeeded. */
  lemma {:induction false} RevisionsCount(r: Rules, ss: seq<State>, es: seq<Event>, os: seq<Outcome>, id: int, i: nat, k: nat)
    requires Compiler(r) && Run(r, ss, es, os) && i < k < |ss| && id !in ss[i].stored
    requires forall j :: i < j <= k ==> id in ss[j].stored
    ensures ss[k].stored[id].revision == 1 + UpdateCount(es, os, id, i + 1, k)
    decreases k
  {
    RevisionAt(r, ss, es, os, id, k - 1);
    if k > i + 1 {
      RevisionsCount(r, ss, es, os, id, i, k - 1);
    }
  }

  /** For the zone compiler: in every run, whatever order the stored zones are listed in,
      compiling them gives what is served. */
  lemma ServedInEveryRun(ss: seq<State>, es: seq<Event>, os: seq<Outcome>, i: nat, zs: seq<Zone>)
    requires Run(ZoneRules(), ss, es, os) && i < |ss| && Lists(zs, ss[i].stored)
    ensures CompileSpec(zs) == Some(ss[i].served)
  {
    ZoneCompiler();
    AlwaysCoherent(ZoneRules(), ss, es, os, i);
    ServedIsCompiled(ZoneRules(), ss[i], zs);
  }

  // ---------- who may change what ----------

  /** When a new zone is saved: it brings no numbers of its own, compiles beside the stored
      zones, and the repository takes it. */
  lemma CreateMeans(r: Rules, s: State, z: Zone, a: Answer)
    requires Compiler(r) && Coherent(r, s) && Contract(s.stored, z, a)
    ensures var o := Create(r, s, z, a).outcome;
            var unnumbered := z.id == 0 && z.revision == 0 && forall i :: 0 <= i < |z.records| ==> z.records[i].id == 0;
            var compiles := r.compile(Listing(s.stored - {z.id}) + [z.(revision := 1)]).Some?;
            && (o == Invalid <==> !unnumbered || !compiles)
            && (o == RepositoryFailed <==> unnumbered && compiles && a.Fails?)
            && (o.Saved? <==> unnumbered && compiles && a.Assigns?)
  {
  }

  /** The records given with numbers are those of the stored zone. */
  ghost predicate KnownRecords(stored: Zone, z: Zone) {
    forall i :: 0 <= i < |z.records| ==> z.records[i].id == 0 || exists j :: 0 <= j < |stored.records| && stored.records[j].id == z.records[i].id
  }

  /** When an update is refused, and why; otherwise it is saved. */
  lemma UpdateMeans(r: Rules, s: State, id: int, revision: U32, z: Zone, a: Answer)
    requires Compiler(r) && Coherent(r, s) && Contract(s.stored, z.(id := id), a)
    ensures var o := Update(r, s, id, revision, z, a).outcome;
            var current := id in s.stored && s.stored[id].revision == revision && revision != 0xFFFF_FFFF;
            var good := current && KnownRecords(s.stored[id], z) && r.compile(Listing(s.stored - {id}) + [z.(id := id, revision := revision + 1)]).Some?;
            && (o == NotFound <==> id !in s.stored)
            && (o == Conflict <==> id in s.stored && !current)
            && (o == Invalid <==> current && !good)
            && (o == RepositoryFailed <==> good && a.Fails?)
            && (o.Saved? <==> good && a.Assigns?)
  {
  }

  lemma DeleteMeans(r: Rules, s: State, id: int, revision: U32, fails: bool)
    requires Compiler(r) && Coherent(r, s)
    ensures var o := Delete(r, s, id, revision, fails).outcome;
            var current := id in s.stored && s.stored[id].revision == revision;
            var good := current && r.compile(Listing(s.stored - {id})).Some?;
            && (o == NotFound <==> id !in s.stored)
            && (o == Conflict <==> id in s.stored && !current)
            && (o == Invalid <==> current && !good)
            && (o == RepositoryFailed <==> good && fails)
            && (o == Deleted <==> good && !fails)
  {
  }

  /** A zone that is not updated is as it was. */
  lemma KeptUnlessUpdated(r: Rules, ss: seq<State>, es: seq<Event>, os: seq<Outcome>, id: int, i: nat)
    requires Compiler(r) && Run(r, ss, es, os) && i < |es| && id in ss[i].stored && id in ss[i + 1].stored
    ensures ss[i + 1].stored[id] == ss[i].stored[id] || Updated(es[i], os[i], id)
  {
    AlwaysCoherent(r, ss, es, os, i);
  }

  /** No update is lost: while a zone exists, an update that names the revision read at some
      point succeeds only if the zone is still exactly what was read. */
  lemma {:induction false} NoLostUpdate(r: Rules, ss: seq<State>, es: seq<Event>, os: seq<Outcome>, id: int, h: nat, i: nat)
    requires Compiler(r) && Run(r, ss, es, os) && h <= i < |es| && (forall j :: h <= j <= i ==> id in ss[j].stored)
    requires Updated(es[i], os[i], id) && ss[h].stored[id].revision == es[i].revision
    ensures ss[i].stored[id] == ss[h].stored[id] && UpdateCount(es, os, id, h, i) == 0
  {
    AlwaysCoherent(r, ss, es, os, i);
    RevisionGrows(r, ss, es, os, id, h, i);
  }

  lemma {:induction false} RevisionGrows(r: Rules, ss: seq<State>, es: seq<Event>, os: seq<Outcome>, id: int, h: nat, i: nat)
    requires Compiler(r) && Run(r, ss, es, os) && h <= i < |ss| && (forall j :: h <= j <= i ==> id in ss[j].stored)
    ensures ss[i].stored[id].revision == ss[h].stored[id].revision + UpdateCount(es, os, id, h, i)
    ensures UpdateCount(es, os, id, h, i) == 0 ==> ss[i].stored[id] == ss[h].stored[id]
  {
    if h < i {
      RevisionGrows(r, ss, es, os, id, h, i - 1);
      RevisionAt(r, ss, es, os, id, i - 1);
      KeptUnlessUpdated(r, ss, es, os, id, i - 1);
    }
  }

  // ---------- the service as it runs ----------

  class Service {
    const rules: Rules
    var stored: Stored
    var served: Snapshot

    ghost function Contents(): State reads this { State(stored, served) }

    ghost predicate Valid() reads this { Compiler(rules) && Coherent(rules, Contents()) }

    constructor (rules: Rules, stored: Stored, served: Snapshot)
      ensures this.rules == rules && Contents() == State(stored, served)
    {
      this.rules, this.stored, this.served := rules, stored, served;
    }

    /** The served zones in some order. */
    method List() returns (all: seq<Zone>)
      requires Valid()
      ensures Lists(all, stored)
    {
      all := ListAll(served.byId);
    }

    /** The served zones without one of them. */
    method Others(id: int) returns (rest: seq<Zone>)
      requires Valid()
      ensures Lists(rest, stored - {id})
    {
      var all := List();
      for i := 0 to |all|
        invariant forall j :: 0 <= j < i ==> all[j].id != id
      {
        if all[i].id == id {
          WithoutIndexLists(all, stored, i);
          return all[..i] + all[i + 1..];
        }
      }
      return all;
    }

    /** Compiles first, then stores, then serves; a failure on the way leaves both alone. */
    method SaveZone(z: Zone, expected: U32, a: Answer) returns (o: Outcome)
      requires Valid() && Contract(stored, z, a)
      modifies this`stored, this`served
      ensures Valid() && Result(Contents(), o) == Save(rules, old(Contents()), z, expected, a)
    {
      var rest := Others(z.id);
      SaveKeepsCoherent(rules, Contents(), z, expected, a);
      CompileBeside(rules, Contents(), z, rest);
      var next := rules.compile(rest + [z]);
      if next.None? {
        return Invalid;
      }
      if expected != 0 && !RevisionMatches(stored, z.id, expected) {
        return Conflict;
      }
      if a.Fails? {
        return RepositoryFailed;
      }
      NumberedFits(rules, stored - {z.id}, z, a);
      var saved := Assigned(next.value.byId[z.id], a);
      stored := stored[saved.id := saved];
      served := Published(next.value, z.id, saved);
      return Saved(saved);
    }

    method CreateZone(z: Zone, a: Answer) returns (o: Outcome)
      requires Valid() && Contract(stored, z, a)
      modifies this`stored, this`served
      ensures Valid() && Result(Contents(), o) == Create(rules, old(Contents()), z, a)
    {
      if z.id != 0 || z.revision != 0 {
        return Invalid;
      }
      for i := 0 to |z.records|
        invariant forall j :: 0 <= j < i ==> z.records[j].id == 0
      {
        if z.records[i].id != 0 {
          return Invalid;
        }
      }
      o := SaveZone(z.(revision := 1), 0, a);
    }

    method UpdateZone(id: int, revision: U32, z: Zone, a: Answer) returns (o: Outcome)
      requires Valid() && Contract(stored, z.(id := id), a)
      modifies this`stored, this`served
      ensures Valid() && Result(Contents(), o) == Update(rules, old(Contents()), id, revision, z, a)
    {
      if id !in served.byId {
        return NotFound;
      }
      if served.byId[id].revision != revision || revision == MAX_REVISION {
        return Conflict;
      }
      var own := CheckOwn(served.byId[id].records, z.records);
      if !own {
        return Invalid;
      }
      o := SaveZone(z.(id := id, revision := revision + 1), revision, a);
    }

    method DeleteZone(id: int, revision: U32, fails: bool) returns (o: Outcome)
      requires Valid()
      modifies this`stored, this`served
      ensures Valid() && Result(Contents(), o) == Delete(rules, old(Contents()), id, revision, fails)
    {
      if id !in served.byId {
        return NotFound;
      }
      if served.byId[id].revision != revision {
        return Conflict;
      }
      var rest := Others(id);
      DeleteKeepsCoherent(rules, Contents(), id, revision, fails);
      CompileWithout(rules, Contents(), id, rest);
      var next := rules.compile(rest);
      if next.None? {
        return Invalid;
      }
      if fails {
        return RepositoryFailed;
      }
      stored := stored - {id};
      served := next.value;
      return Deleted;
    }
  }

  /** Starts from whatever the repository holds: refused exactly if that does not compile,
      and valid if the zones were stored in normal form under their identifiers. */
  method New(rules: Rules, stored: Stored, loaded: seq<Zone>) returns (service: Service?)
    requires Compiler(rules)
    ensures service == null <==> rules.compile(loaded).None?
    ensures service != null ==> fresh(service) && service.rules == rules
    ensures service != null ==> service.Contents() == State(stored, rules.compile(loaded).value)
    ensures service != null && Lists(loaded, stored) && Filed(stored) && AllNormal(rules, stored) ==> service.Valid()
  {
    var state := rules.compile(loaded);
    if state.None? {
      return null;
    }
    service := new Service(rules, stored, state.value);
    if Lists(loaded, stored) && Filed(stored) && AllNormal(rules, stored) {
      CoherentFrom(rules, State(stored, state.value), loaded);
    }
  }

  /** The zones a listing has come to. */
  ghost function Visited(m: Stored, todo: set<int>): Stored { map k | k in m && k !in todo :: m[k] }

  lemma VisitOneMore(all: seq<Zone>, m: Stored, todo: set<int>, id: int)
    requires Filed(m) && Lists(all, Visited(m, todo)) && id in todo && id in m
    ensures Lists(all + [m[id]], Visited(m, todo - {id}))
  {
    assert Visited(m, todo - {id}) == Visited(m, todo)[id := m[id]];
    ListsOneMore(all, Visited(m, todo), m[id]);
  }

  method ListAll(m: Stored) returns (all: seq<Zone>)
    requires Filed(m)
    ensures Lists(all, m)
  {
    all := [];
    var todo := m.Keys;
    assert Visited(m, m.Keys) == map[];
    while todo != {}
      invariant todo <= m.Keys && Lists(all, Visited(m, todo))
      decreases todo
    {
      SomeKey(todo);
      var id :| id in todo;
      VisitOneMore(all, m, todo, id);
      all := all + [m[id]];
      todo := todo - {id};
    }
    assert Visited(m, {}) == m;
  }

  method CheckOwn(mine: seq<Record>, rs: seq<Record>) returns (ok: bool)
    ensures ok == OwnRecords(mine, rs)
  {
    var ids := set i | 0 <= i < |mine| :: mine[i].id;
    for i := 0 to |rs|
      invariant OwnRecords(mine, rs[..i])
    {
      if rs[i].id != 0 && rs[i].id !in ids {
        return false;
      }
    }
    assert rs[..|rs|] == rs;
    return true;
  }

  lemma CompileBeside(r: Rules, s: State, z: Zone, rest: seq<Zone>)
    requires Compiler(r) && Coherent(r, s) && Lists(rest, s.stored - {z.id})
    ensures r.compile(rest + [z]) == r.compile(Listing(s.stored - {z.id}) + [z])
  {
    Fewer(r, s.stored, z.id);
    ListingLists(s.stored - {z.id});
    BesideAnyOrder(r, s.stored - {z.id}, z, rest, Listing(s.stored - {z.id}));
  }

  lemma Fewer(r: Rules, m: Stored, id: int)
    requires Filed(m) && AllNormal(r, m)
    ensures Filed(m - {id}) && AllNormal(r, m - {id}) && id !in m - {id}
  {
  }

  lemma BesideAnyOrder(r: Rules, m: Stored, z: Zone, zs: seq<Zone>, ys: seq<Zone>)
    requires Compiler(r) && Filed(m) && AllNormal(r, m) && Lists(zs, m) && Lists(ys, m) && z.id !in m
    ensures r.compile(zs + [z]) == r.compile(ys + [z])
  {
    assert BesideLaw(r, m, z, zs, ys);
  }

  lemma AnyOrder(r: Rules, m: Stored, zs: seq<Zone>, ys: seq<Zone>)
    requires Compiler(r) && Filed(m) && AllNormal(r, m) && Lists(zs, m) && Lists(ys, m)
    ensures r.compile(zs) == r.compile(ys)
  {
    assert OrderLaw(r, m, zs, ys);
  }

  lemma CompileWithout(r: Rules, s: State, id: int, rest: seq<Zone>)
    requires Compiler(r) && Coherent(r, s) && Lists(rest, s.stored - {id})
    ensures r.compile(rest) == r.compile(Listing(s.stored - {id}))
  {
    Fewer(r, s.stored, id);
    ListingLists(s.stored - {id});
    AnyOrder(r, s.stored - {id}, rest, Listing(s.stored - {id}));
  }

}
