/** Authoritative zones compiled into one immutable snapshot, and lookups in it. */
module Zones {
  import opened Dns
  import opened ZoneRecords
  import opened AnswerChain

  const MAX_ZONES := 256
  const MAX_TOTAL_RECORDS := 10000
  const MAX_NAMES := 16

  // ---------- the records of a zone ----------

  function Rr(r: Record): RR {
    if RecordRR(r).Some? then RecordRR(r).value else RR([], 0, Raw(0, Content([], 0)))
  }

  function Rrs(rs: seq<Record>): seq<RR> { seq(|rs|, i requires 0 <= i < |rs| => Rr(rs[i])) }

  function OwnedBy(n: Name): RR -> bool { (rr: RR) => rr.owner == n }

  function RecordsAt(rrs: seq<RR>, n: Name): seq<RR> { Filter(OwnedBy(n), rrs) }

  /** The names from an owner up to its zone. */
  function NamesUpTo(owner: Name, zone: Name): set<Name> {
    set i | 0 <= i <= |owner| - |zone| :: owner[i..]
  }

  function Names(rrs: seq<RR>, zone: Name): set<Name> {
    if rrs == [] then {zone} else Names(rrs[..|rrs| - 1], zone) + NamesUpTo(rrs[|rrs| - 1].owner, zone)
  }

  function Grouped(rrs: seq<RR>): map<Name, seq<RR>> {
    if rrs == [] then map[]
    else
      var rr := rrs[|rrs| - 1];
      var m := Grouped(rrs[..|rrs| - 1]);
      m[rr.owner := At(m, rr.owner) + [rr]]
  }

  function At(m: map<Name, seq<RR>>, n: Name): seq<RR> { if n in m then m[n] else [] }

  datatype View = View(zone: Zone, records: map<Name, seq<RR>>, names: set<Name>)

  function ViewOf(z: Zone): View { View(z, Grouped(Rrs(z.records)), Names(Rrs(z.records), z.name.labels)) }

  type Views = map<Name, View>

  datatype Snapshot = Snapshot(byId: map<int, Zone>, byName: Views)

  function SnapshotOf(zs: seq<Zone>): Snapshot {
    if zs == [] then Snapshot(map[], map[])
    else
      var z := zs[|zs| - 1];
      var s := SnapshotOf(zs[..|zs| - 1]);
      Snapshot(s.byId[z.id := z], s.byName[z.name.labels := ViewOf(z)])
  }

  lemma {:induction false} GroupedAt(rrs: seq<RR>, n: Name)
    ensures At(Grouped(rrs), n) == RecordsAt(rrs, n)
  {
    if rrs != [] {
      var k := |rrs| - 1;
      GroupedAt(rrs[..k], n);
      assert rrs == rrs[..k] + [rrs[k]];
      FilterConcat(OwnedBy(n), rrs[..k], [rrs[k]]);
      assert Filter(OwnedBy(n), [rrs[k]]) == if rrs[k].owner == n then [rrs[k]] else [];
    }
  }

  lemma NamesUpToMembers(owner: Name, zone: Name, n: Name)
    requires AtOrBelow(owner, zone)
    ensures n in NamesUpTo(owner, zone) <==> AtOrBelow(owner, n) && AtOrBelow(n, zone)
  {
    if n in NamesUpTo(owner, zone) {
      var i :| 0 <= i <= |owner| - |zone| && owner[i..] == n;
      assert n[|n| - |zone|..] == owner[|owner| - |zone|..];
    }
    if AtOrBelow(owner, n) && AtOrBelow(n, zone) {
      assert owner[|owner| - |n|..] == n;
    }
  }

  /** The recorded names are the zone itself and everything at or above a record. */
  lemma {:induction false} NamesMembers(rrs: seq<RR>, zone: Name, n: Name)
    requires forall rr :: rr in rrs ==> AtOrBelow(rr.owner, zone)
    ensures n in Names(rrs, zone) <==> n == zone || (AtOrBelow(n, zone) && exists rr :: rr in rrs && AtOrBelow(rr.owner, n))
  {
    if rrs != [] {
      var k := |rrs| - 1;
      NamesMembers(rrs[..k], zone, n);
      assert forall rr :: rr in rrs <==> rr in rrs[..k] || rr == rrs[k];
      NamesUpToMembers(rrs[k].owner, zone, n);
    }
  }

  // ---------- what a snapshot must satisfy ----------

  predicate Compatible(a: RR, b: RR) {
    && a != b
    && (a.owner == b.owner ==> a.Type() != TYPE_CNAME && b.Type() != TYPE_CNAME && (a.Type() == b.Type() ==> a.ttl == b.ttl))
  }

  function Ids(rs: seq<Record>): seq<int> { seq(|rs|, i requires 0 <= i < |rs| => rs[i].id) }

  predicate ValidIds(ids: seq<int>) {
    && (forall i :: 0 <= i < |ids| ==> ids[i] >= 0)
    && (forall i, j :: 0 <= i < j < |ids| && ids[i] > 0 ==> ids[i] != ids[j])
  }

  predicate Consistent(rrs: seq<RR>) {
    forall i, j :: 0 <= i < j < |rrs| ==> Compatible(rrs[i], rrs[j])
  }

  function FirstAlias(rrs: seq<RR>): Option<Name> {
    if rrs == [] then None
    else if rrs[0].data.Alias? then Some(rrs[0].data.target)
    else FirstAlias(rrs[1..])
  }

  /** The alias of a name in the zone that is responsible for it. */
  function AliasAt(t: Views, n: Name): Option<Name> {
    var v := Closest(t, n);
    if v.None? then None else FirstAlias(At(v.value.records, n))
  }

  /** Following aliases from `n` visits at most `k` names. */
  predicate Ends(t: Views, n: Name, k: nat)
    decreases k
  {
    k > 0 && (AliasAt(t, n).None? || Ends(t, AliasAt(t, n).value, k - 1))
  }

  predicate LoopFree(t: Views) {
    forall z, n :: z in t && n in t[z].records && FirstAlias(t[z].records[n]).Some? ==> Ends(t, n, MAX_NAMES)
  }

  predicate Normalizable(all: seq<Zone>) {
    forall i :: 0 <= i < |all| ==> NormalizeZone(all[i]).Some?
  }

  function NormalizeAll(all: seq<Zone>): seq<Zone>
    requires Normalizable(all)
  {
    seq(|all|, i requires 0 <= i < |all| => NormalizeZone(all[i]).value)
  }

  function TotalRecords(zs: seq<Zone>): nat {
    if zs == [] then 0 else TotalRecords(zs[..|zs| - 1]) + |zs[|zs| - 1].records|
  }

  predicate DistinctNames(zs: seq<Zone>) {
    forall i, j :: 0 <= i < j < |zs| ==> zs[i].name.labels != zs[j].name.labels
  }

  predicate GoodZone(z: Zone) { ValidIds(Ids(z.records)) && Consistent(Rrs(z.records)) }

  predicate Sound(zs: seq<Zone>) {
    && DistinctNames(zs) && TotalRecords(zs) <= MAX_TOTAL_RECORDS
    && (forall i :: 0 <= i < |zs| ==> GoodZone(zs[i]))
  }

  /** Which zones can be served together, and as what. */
  function CompileSpec(all: seq<Zone>): Option<Snapshot> {
    if |all| > MAX_ZONES || !Normalizable(all) || !Sound(NormalizeAll(all))
       || !LoopFree(SnapshotOf(NormalizeAll(all)).byName) then None
    else Some(SnapshotOf(NormalizeAll(all)))
  }

  // ---------- compiling ----------

  method CollectNames(names: set<Name>, owner: Name, zone: Name) returns (out: set<Name>)
    requires zone != [] && AtOrBelow(owner, zone)
    ensures out == names + NamesUpTo(owner, zone)
  {
    out := names;
    var name := owner;
    ghost var i := 0;
    while AtOrBelow(name, zone) && name != []
      invariant 0 <= i <= |owner| - |zone| + 1 && name == owner[i..]
      invariant out == names + set j | 0 <= j < i :: owner[j..]
      decreases |name|
    {
      out := out + {name};
      name := name[1..];
      i := i + 1;
    }
    SuffixBelow(owner, zone, i);
  }

  /** A name stays below its zone until the zone itself is dropped. */
  lemma SuffixBelow(owner: Name, zone: Name, i: nat)
    requires AtOrBelow(owner, zone) && i <= |owner|
    ensures i <= |owner| - |zone| ==> AtOrBelow(owner[i..], zone)
  {
    if i <= |owner| - |zone| {
      assert owner[i..][|owner| - i - |zone|..] == owner[|owner| - |zone|..];
    }
  }

  /** Whether a record may join those already collected at its name. */
  method FitsWith(existing: seq<RR>, rr: RR) returns (ok: bool)
    requires forall x :: x in existing ==> x.owner == rr.owner && x != rr
    ensures ok <==> forall x :: x in existing ==> Compatible(x, rr)
  {
    for i := 0 to |existing|
      invariant forall j :: 0 <= j < i ==> Compatible(existing[j], rr)
    {
      assert existing[i] in existing;
      if existing[i].Type() == TYPE_CNAME || rr.Type() == TYPE_CNAME {
        return false;
      }
      if existing[i].Type() == rr.Type() && existing[i].ttl != rr.ttl {
        return false;
      }
    }
    return true;
  }

  predicate Proper(rrs: seq<RR>, zone: Name) {
    forall rr :: rr in rrs ==> AtOrBelow(rr.owner, zone)
  }

  function Elements(s: seq<RR>): set<RR> { set x | x in s }

  /** Whether the next record can stand beside the earlier ones. */
  method Admits(rrs: seq<RR>, i: nat, unique: set<RR>, records: map<Name, seq<RR>>) returns (ok: bool)
    requires i < |rrs| && Consistent(rrs[..i])
    requires unique == Elements(rrs[..i])
    requires records == Grouped(rrs[..i])
    ensures ok <==> Consistent(rrs[..i + 1])
  {
    var rr := rrs[i];
    assert rrs[..i + 1] == rrs[..i] + [rr];
    if rr in unique {
      var j :| 0 <= j < i && rrs[..i][j] == rr;
      assert !Compatible(rrs[..i + 1][j], rrs[..i + 1][i]);
      return false;
    }
    FilterMembers(OwnedBy(rr.owner), rrs[..i]);
    GroupedAt(rrs[..i], rr.owner);
    ok := FitsWith(At(records, rr.owner), rr);
    if !ok {
      var x :| x in At(records, rr.owner) && !Compatible(x, rr);
      var j :| 0 <= j < i && rrs[..i][j] == x;
      assert !Compatible(rrs[..i + 1][j], rrs[..i + 1][i]);
    } else {
      forall j | 0 <= j < i
        ensures Compatible(rrs[..i][j], rr)
      {
        assert rrs[..i][j] in rrs[..i];
      }
    }
  }

  method CheckIds(ids: seq<int>) returns (ok: bool)
    ensures ok <==> ValidIds(ids)
  {
    var seen: set<int> := {};
    for i := 0 to |ids|
      invariant forall x :: x in seen <==> exists j :: 0 <= j < i && ids[j] == x
      invariant ValidIds(ids[..i])
    {
      assert ids[..i + 1] == ids[..i] + [ids[i]];
      if ids[i] < 0 || (ids[i] > 0 && ids[i] in seen) {
        return false;
      }
      seen := seen + {ids[i]};
    }
    assert ids[..|ids|] == ids;
    return true;
  }

  /** Collects the records of one zone by name, or finds them inconsistent. */
  method Collect(rrs: seq<RR>, zone: Name) returns (ok: bool, records: map<Name, seq<RR>>, names: set<Name>)
    requires zone != [] && Proper(rrs, zone)
    ensures ok <==> Consistent(rrs)
    ensures ok ==> records == Grouped(rrs) && names == Names(rrs, zone)
  {
    records, names := map[], {zone};
    var unique: set<RR> := {};
    for i := 0 to |rrs|
      invariant Consistent(rrs[..i])
      invariant unique == Elements(rrs[..i])
      invariant records == Grouped(rrs[..i]) && names == Names(rrs[..i], zone)
    {
      var rr := rrs[i];
      ok := Admits(rrs, i, unique, records);
      if !ok {
        return;
      }
      PrefixStep(rrs, i, zone);
      unique := unique + {rr};
      records := records[rr.owner := At(records, rr.owner) + [rr]];
      names := CollectNames(names, rr.owner, zone);
    }
    assert rrs[..|rrs|] == rrs;
    ok := true;
  }

  lemma PrefixStep(rrs: seq<RR>, i: nat, zone: Name)
    requires i < |rrs| && Proper(rrs, zone)
    ensures AtOrBelow(rrs[i].owner, zone)
    ensures Elements(rrs[..i + 1]) == Elements(rrs[..i]) + {rrs[i]}
    ensures Grouped(rrs[..i + 1]) == (var m := Grouped(rrs[..i]); m[rrs[i].owner := At(m, rrs[i].owner) + [rrs[i]]])
    ensures Names(rrs[..i + 1], zone) == Names(rrs[..i], zone) + NamesUpTo(rrs[i].owner, zone)
  {
    assert rrs[i] in rrs && rrs[..i + 1] == rrs[..i] + [rrs[i]] && rrs[..i + 1][..i] == rrs[..i];
  }

  method BuildView(z: Zone) returns (v: Option<View>)
    requires z.name.labels != [] && Proper(Rrs(z.records), z.name.labels)
    ensures v.Some? <==> GoodZone(z)
    ensures v.Some? ==> v.value == ViewOf(z)
  {
    var okIds := CheckIds(Ids(z.records));
    if !okIds {
      return None;
    }
    var ok, records, names := Collect(Rrs(z.records), z.name.labels);
    return if ok then Some(View(z, records, names)) else None;
  }

  // ---------- alias loops ----------

  /** Where `j` aliases lead, if there are that many. */
  ghost function Steps(t: Views, n: Name, j: nat): Option<Name>
    decreases j
  {
    if j == 0 then Some(n)
    else if AliasAt(t, n).None? then None
    else Steps(t, AliasAt(t, n).value, j - 1)
  }

  lemma {:induction false} StepsOneMore(t: Views, n: Name, j: nat, m: Name)
    requires Steps(t, n, j) == Some(m)
    ensures Steps(t, n, j + 1) == AliasAt(t, m)
    decreases j
  {
    if j > 0 {
      StepsOneMore(t, AliasAt(t, n).value, j - 1, m);
    }
  }

  lemma {:induction false} EndsAlong(t: Views, n: Name, k: nat, j: nat)
    requires Ends(t, n, k) && Steps(t, n, j).Some?
    ensures j < k && Ends(t, Steps(t, n, j).value, k - j)
    decreases j
  {
    if j > 0 {
      EndsAlong(t, AliasAt(t, n).value, k - 1, j - 1);
    }
  }

  /** A name that leads back to itself never ends. */
  lemma {:induction false} CycleNeverEnds(t: Views, n: Name, j: nat, k: nat)
    requires j >= 1 && Steps(t, n, j) == Some(n)
    ensures !Ends(t, n, k)
    decreases k
  {
    if k >= j {
      CycleNeverEnds(t, n, j, k - j);
    }
    if Ends(t, n, k) {
      EndsAlong(t, n, k, j);
    }
  }

  method AliasOf(rrs: seq<RR>) returns (target: Option<Name>)
    ensures target == FirstAlias(rrs)
  {
    for i := 0 to |rrs|
      invariant FirstAlias(rrs) == FirstAlias(rrs[i..])
    {
      if rrs[i].data.Alias? {
        return Some(rrs[i].data.target);
      }
    }
    return None;
  }

  /** Names visited before, each leading to the current one. */
  ghost predicate LeadTo(t: Views, seen: set<Name>, target: Name) {
    forall x :: x in seen ==> exists j: nat :: j >= 1 && Steps(t, x, j) == Some(target)
  }

  lemma LeadToNext(t: Views, seen: set<Name>, target: Name, next: Name)
    requires LeadTo(t, seen, target) && AliasAt(t, target) == Some(next)
    ensures LeadTo(t, seen + {target}, next)
  {
    forall x | x in seen + {target}
      ensures exists j: nat :: j >= 1 && Steps(t, x, j) == Some(next)
    {
      if x in seen {
        var j: nat :| j >= 1 && Steps(t, x, j) == Some(target);
        StepsOneMore(t, x, j, target);
      } else {
        StepsOneMore(t, target, 0, target);
      }
    }
  }

  /** A name met before leads back to itself. */
  lemma SeenNeverEnds(t: Views, seen: set<Name>, target: Name, k: nat)
    requires LeadTo(t, seen, target) && target in seen
    ensures !Ends(t, target, k)
  {
    var j: nat :| j >= 1 && Steps(t, target, j) == Some(target);
    CycleNeverEnds(t, target, j, k);
  }

  method NextAlias(t: Views, n: Name) returns (next: Option<Name>)
    ensures next == AliasAt(t, n)
  {
    var owner := WalkUp(t, n);
    if owner.None? {
      return None;
    }
    next := AliasOf(At(owner.value.records, n));
  }

  /** Follows aliases from a name and gives up on a repeated or a seventeenth name. */
  method FollowAliases(t: Views, name: Name) returns (ok: bool)
    ensures ok <==> Ends(t, name, MAX_NAMES)
  {
    var seen: set<Name> := {};
    var target := name;
    for depth := 0 to MAX_NAMES
      invariant Ends(t, name, MAX_NAMES) <==> Ends(t, target, MAX_NAMES - depth)
      invariant LeadTo(t, seen, target)
    {
      if target in seen {
        SeenNeverEnds(t, seen, target, MAX_NAMES - depth);
        return false;
      }
      var next := NextAlias(t, target);
      if next.None? {
        return true;
      }
      LeadToNext(t, seen, target, next.value);
      seen := seen + {target};
      target := next.value;
    }
    return false;
  }

  predicate ViewEnds(t: Views, v: View, n: Name) {
    n in v.records && FirstAlias(v.records[n]).Some? ==> Ends(t, n, MAX_NAMES)
  }

  method CheckView(t: Views, v: View) returns (ok: bool)
    ensures ok <==> forall n :: n in v.records ==> ViewEnds(t, v, n)
  {
    var todo := v.records.Keys;
    while todo != {}
      invariant forall n :: n in v.records && n !in todo ==> ViewEnds(t, v, n)
      invariant todo <= v.records.Keys
      decreases todo
    {
      var n :| n in todo;
      var alias := AliasOf(v.records[n]);
      if alias.Some? {
        ok := FollowAliases(t, n);
        if !ok {
          assert !ViewEnds(t, v, n);
          return;
        }
      }
      todo := todo - {n};
    }
    return true;
  }

  /** Rejects alias loops within and across zones. */
  method CheckLoops(t: Views) returns (ok: bool)
    ensures ok <==> LoopFree(t)
  {
    var todo := t.Keys;
    while todo != {}
      invariant forall z, n :: z in t && z !in todo && n in t[z].records ==> ViewEnds(t, t[z], n)
      invariant todo <= t.Keys
      decreases todo
    {
      var z :| z in todo;
      ok := CheckView(t, t[z]);
      if !ok {
        return;
      }
      todo := todo - {z};
    }
    return true;
  }

  lemma NormalZoneProper(z: Zone)
    requires NormalizeZone(z) == Some(z)
    ensures z.name.labels != [] && forall rr :: rr in Rrs(z.records) ==> Servable(rr, z.name.labels)
  {
    forall rr | rr in Rrs(z.records)
      ensures Servable(rr, z.name.labels)
    {
      var i :| 0 <= i < |z.records| && Rrs(z.records)[i] == rr;
      NormalRecordRR(z, i);
    }
  }

  lemma {:induction false} SnapshotNames(zs: seq<Zone>, n: Name)
    ensures n in SnapshotOf(zs).byName <==> exists i :: 0 <= i < |zs| && zs[i].name.labels == n
  {
    if zs != [] {
      SnapshotNames(zs[..|zs| - 1], n);
      assert forall i :: 0 <= i < |zs| - 1 ==> zs[..|zs| - 1][i] == zs[i];
    }
  }

  lemma {:induction false} TotalGrows(zs: seq<Zone>, i: nat)
    requires i <= |zs|
    ensures TotalRecords(zs[..i]) <= TotalRecords(zs)
    decreases |zs|
  {
    if i < |zs| {
      TotalGrows(zs[..|zs| - 1], i);
      assert zs[..|zs| - 1][..i] == zs[..i];
    } else {
      assert zs[..i] == zs;
    }
  }

  /** What a normalised zone offers the compiler. */
  ghost predicate Ready(z: Zone) {
    z.name.labels != [] && forall rr :: rr in Rrs(z.records) ==> Servable(rr, z.name.labels)
  }

  lemma SnapshotOneMore(zs: seq<Zone>, z: Zone)
    ensures SnapshotOf(zs + [z]) == Snapshot(SnapshotOf(zs).byId[z.id := z], SnapshotOf(zs).byName[z.name.labels := ViewOf(z)])
    ensures TotalRecords(zs + [z]) == TotalRecords(zs) + |z.records|
  {
    assert (zs + [z])[..|zs|] == zs;
  }

  lemma DistinctOneMore(zs: seq<Zone>, z: Zone)
    requires DistinctNames(zs)
    ensures DistinctNames(zs + [z]) <==> z.name.labels !in SnapshotOf(zs).byName
  {
    var next := zs + [z];
    SnapshotNames(zs, z.name.labels);
    if i :| 0 <= i < |zs| && zs[i].name.labels == z.name.labels {
      assert next[i].name.labels == next[|zs|].name.labels;
    }
  }

  lemma GoodOneMore(zs: seq<Zone>, z: Zone)
    requires forall i :: 0 <= i < |zs| ==> GoodZone(zs[i])
    ensures (forall i :: 0 <= i < |zs + [z]| ==> GoodZone((zs + [z])[i])) <==> GoodZone(z)
  {
    assert (zs + [z])[|zs|] == z;
  }

  lemma SoundOneMore(zs: seq<Zone>, z: Zone)
    requires Sound(zs)
    ensures Sound(zs + [z]) <==>
            z.name.labels !in SnapshotOf(zs).byName && TotalRecords(zs) + |z.records| <= MAX_TOTAL_RECORDS && GoodZone(z)
  {
    SnapshotOneMore(zs, z);
    DistinctOneMore(zs, z);
    GoodOneMore(zs, z);
  }

  /** Adds one normalised zone to those compiled so far. */
  method AddZone(s: Snapshot, ghost zs: seq<Zone>, z: Zone, total: nat) returns (out: Option<Snapshot>)
    requires s == SnapshotOf(zs) && Sound(zs) && Ready(z) && total == TotalRecords(zs) + |z.records|
    ensures out == if Sound(zs + [z]) then Some(SnapshotOf(zs + [z])) else None
  {
    SoundOneMore(zs, z);
    SnapshotOneMore(zs, z);
    if z.name.labels in s.byName || total > MAX_TOTAL_RECORDS {
      return None;
    }
    var v := BuildView(z);
    if v.None? {
      return None;
    }
    return Some(Snapshot(s.byId[z.id := z], s.byName[z.name.labels := v.value]));
  }

  lemma SoundPrefix(zs: seq<Zone>, i: nat)
    requires i <= |zs| && Sound(zs)
    ensures Sound(zs[..i])
  {
    TotalGrows(zs, i);
  }

  method AddAll(zs: seq<Zone>) returns (out: Option<Snapshot>)
    requires forall i :: 0 <= i < |zs| ==> Ready(zs[i])
    ensures out == if Sound(zs) then Some(SnapshotOf(zs)) else None
  {
    var s := Snapshot(map[], map[]);
    var total := 0;
    for i := 0 to |zs|
      invariant Sound(zs[..i]) && s == SnapshotOf(zs[..i]) && total == TotalRecords(zs[..i])
    {
      assert zs[..i + 1] == zs[..i] + [zs[i]];
      SnapshotOneMore(zs[..i], zs[i]);
      total := total + |zs[i].records|;
      var added := AddZone(s, zs[..i], zs[i], total);
      if added.None? {
        if Sound(zs) {
          SoundPrefix(zs, i + 1);
        }
        return None;
      }
      s := added.value;
    }
    assert zs[..|zs|] == zs;
    return Some(s);
  }

  method NormalizeEveryZone(all: seq<Zone>) returns (out: Option<seq<Zone>>)
    ensures out == if Normalizable(all) then Some(NormalizeAll(all)) else None
  {
    var zs: seq<Zone> := [];
    for i := 0 to |all|
      invariant |zs| == i && forall j :: 0 <= j < i ==> NormalizeZone(all[j]) == Some(zs[j])
    {
      var z := Normalize(all[i]);
      if z.None? {
        return None;
      }
      zs := zs + [z.value];
    }
    assert zs == NormalizeAll(all);
    return Some(zs);
  }

  lemma NormalizedReady(all: seq<Zone>, i: nat)
    requires Normalizable(all) && i < |all|
    ensures NormalizeZone(NormalizeAll(all)[i]) == Some(NormalizeAll(all)[i]) && Ready(NormalizeAll(all)[i])
  {
    NormalizeZoneIdempotent(all[i]);
    NormalZoneProper(NormalizeAll(all)[i]);
  }

  /** Compiles all zones into one snapshot, or refuses them all. */
  method Compile(all: seq<Zone>) returns (out: Option<Snapshot>)
    ensures out == CompileSpec(all)
  {
    if |all| > MAX_ZONES {
      return None;
    }
    var zs := NormalizeEveryZone(all);
    if zs.None? {
      return None;
    }
    forall i | 0 <= i < |all|
      ensures Ready(zs.value[i])
    {
      NormalizedReady(all, i);
    }
    var s := AddAll(zs.value);
    if s.None? {
      return None;
    }
    var ok := CheckLoops(s.value.byName);
    return if ok then s else None;
  }

  // ---------- which zones are accepted together ----------

  /** A path of names, each but the last an alias for the next in its own zone. */
  ghost predicate AliasPath(t: Views, path: seq<Name>) {
    && path != [] && AliasAt(t, path[|path| - 1]).None?
    && forall i :: 0 <= i < |path| - 1 ==> AliasAt(t, path[i]) == Some(path[i + 1])
  }

  lemma {:induction false} FindAliasPath(t: Views, n: Name, k: nat) returns (path: seq<Name>)
    requires Ends(t, n, k)
    ensures AliasPath(t, path) && path[0] == n && |path| <= k
    decreases k
  {
    path := [n];
    var next := AliasAt(t, n);
    if next.Some? {
      var rest := FindAliasPath(t, next.value, k - 1);
      PathBefore(t, n, rest);
      path := [n] + rest;
    }
  }

  lemma {:induction false} EndsMeans(t: Views, n: Name, k: nat)
    ensures Ends(t, n, k) <==> exists path :: AliasPath(t, path) && path[0] == n && |path| <= k
  {
    if Ends(t, n, k) {
      var path := FindAliasPath(t, n, k);
    }
    if path :| AliasPath(t, path) && path[0] == n && |path| <= k {
      PathEnds(t, path, k);
    }
  }

  lemma PathBefore(t: Views, n: Name, rest: seq<Name>)
    requires AliasPath(t, rest) && AliasAt(t, n) == Some(rest[0])
    ensures AliasPath(t, [n] + rest)
  {
    var path := [n] + rest;
    forall i | 0 <= i < |path| - 1 ensures AliasAt(t, path[i]) == Some(path[i + 1]) {
      if i > 0 {
        assert AliasAt(t, rest[i - 1]) == Some(rest[i - 1 + 1]);
      }
    }
  }

  lemma {:induction false} PathEnds(t: Views, path: seq<Name>, k: nat)
    requires AliasPath(t, path) && |path| <= k
    ensures Ends(t, path[0], k)
    decreases |path|
  {
    if |path| > 1 {
      var rest := path[1..];
      assert AliasAt(t, path[0]) == Some(path[0 + 1]);
      forall i | 0 <= i < |rest| - 1 ensures AliasAt(t, rest[i]) == Some(rest[i + 1]) {
        assert AliasAt(t, path[i + 1]) == Some(path[i + 1 + 1]);
      }
      PathEnds(t, rest, k - 1);
    }
  }

  /** Records that can stand together: no record twice, an alias alone at its name, one TTL
      for one owner and type; numbers not negative, and none twice but zero. */
  ghost predicate StandTogether(z: Zone) {
    var rrs := Rrs(z.records);
    && (forall i, j :: 0 <= i < j < |rrs| ==> rrs[i] != rrs[j])
    && (forall i, j :: 0 <= i < |rrs| && 0 <= j < |rrs| && i != j && rrs[i].owner == rrs[j].owner ==> rrs[i].Type() != TYPE_CNAME)
    && (forall i, j :: 0 <= i < j < |rrs| && rrs[i].owner == rrs[j].owner && rrs[i].Type() == rrs[j].Type() ==> rrs[i].ttl == rrs[j].ttl)
    && (forall i :: 0 <= i < |z.records| ==> z.records[i].id >= 0)
    && (forall i, j :: 0 <= i < j < |z.records| && z.records[i].id == z.records[j].id ==> z.records[i].id == 0)
  }

  lemma GoodZoneMeans(z: Zone)
    ensures GoodZone(z) <==> StandTogether(z)
  {
    var ids, rrs := Ids(z.records), Rrs(z.records);
    assert forall i :: 0 <= i < |ids| ==> ids[i] == z.records[i].id;
    if GoodZone(z) {
      forall i, j | 0 <= i < |rrs| && 0 <= j < |rrs| && i != j && rrs[i].owner == rrs[j].owner ensures rrs[i].Type() != TYPE_CNAME {
        assert i < j ==> Compatible(rrs[i], rrs[j]);
        assert j < i ==> Compatible(rrs[j], rrs[i]);
      }
      forall i, j | 0 <= i < j < |rrs|
        ensures rrs[i] != rrs[j]
        ensures rrs[i].owner == rrs[j].owner && rrs[i].Type() == rrs[j].Type() ==> rrs[i].ttl == rrs[j].ttl
      {
        assert Compatible(rrs[i], rrs[j]);
      }
    }
    if StandTogether(z) {
      forall i, j | 0 <= i < j < |rrs| ensures Compatible(rrs[i], rrs[j]) {
      }
    }
  }

  ghost predicate LeadsToEnd(t: Views, n: Name) { exists path :: AliasPath(t, path) && path[0] == n && |path| <= 16 }

  ghost predicate HasAlias(rrs: seq<RR>) { exists rr :: rr in rrs && rr.data.Alias? }

  /** Every alias of every zone leads to its end within sixteen names, across zones. */
  ghost predicate AliasesEnd(t: Views) {
    forall z, n :: z in t && n in t[z].records && HasAlias(t[z].records[n]) ==> LeadsToEnd(t, n)
  }

  lemma {:induction false} SomeAlias(rrs: seq<RR>)
    ensures FirstAlias(rrs).Some? <==> HasAlias(rrs)
  {
    if rrs != [] {
      SomeAlias(rrs[1..]);
      assert rrs == [rrs[0]] + rrs[1..];
    }
  }

  lemma LoopFreeMeans(t: Views)
    ensures LoopFree(t) <==> AliasesEnd(t)
  {
    forall n ensures Ends(t, n, MAX_NAMES) <==> LeadsToEnd(t, n) {
      EndsMeans(t, n, MAX_NAMES);
    }
    forall z, n | z in t && n in t[z].records ensures FirstAlias(t[z].records[n]).Some? <==> HasAlias(t[z].records[n]) {
      SomeAlias(t[z].records[n]);
    }
  }

  /** Zones under different names, of 10000 records in all, each with records that can stand
      together. */
  ghost predicate Fit(zs: seq<Zone>) {
    && (forall i, j :: 0 <= i < j < |zs| ==> zs[i].name.labels != zs[j].name.labels)
    && TotalRecords(zs) <= 10000 && forall i :: 0 <= i < |zs| ==> StandTogether(zs[i])
  }

  lemma {:induction false} SoundMeans(zs: seq<Zone>)
    ensures Sound(zs) <==> Fit(zs)
  {
    forall i | 0 <= i < |zs| ensures GoodZone(zs[i]) <==> StandTogether(zs[i]) {
      GoodZoneMeans(zs[i]);
    }
  }

  /** Which zones can be served together: at most 256, each acceptable, that fit together
      and whose aliases end. */
  lemma {:induction false} CompileMeans(all: seq<Zone>)
    ensures CompileSpec(all).Some? <==>
              |all| <= 256 && Normalizable(all) && Fit(NormalizeAll(all)) && AliasesEnd(SnapshotOf(NormalizeAll(all)).byName)
  {
    if Normalizable(all) {
      SoundMeans(NormalizeAll(all));
      LoopFreeMeans(SnapshotOf(NormalizeAll(all)).byName);
    }
  }
}
