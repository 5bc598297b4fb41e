/** Answers from a compiled snapshot, and what they mean in terms of the zones. */
module ZoneLookup {
  import opened Dns
  import opened ZoneRecords
  import opened Zones
  import opened AnswerChain

  const NEGATIVE_TTL: U32 := 60
  const NS_TTL: U32 := 300

  function Soa(z: Zone): RR {
    RR(z.name.labels, NEGATIVE_TTL, Authority(z.primary.labels, z.contact.labels, z.revision, NEGATIVE_TTL))
  }

  function DefaultNs(z: Zone): RR {
    RR(z.name.labels, NS_TTL, Raw(TYPE_NS, Content(z.primary.labels, 0)))
  }

  function OfType(kind: nat): RR -> bool { (rr: RR) => rr.Type() == kind }

  /** The records of one type at a name, given all records there. The apex always has an
      authority record and at least one name server. */
  function Select(z: Zone, here: seq<RR>, n: Name, kind: nat): seq<RR> {
    if n == z.name.labels && kind == TYPE_SOA then [Soa(z)]
    else
      var found := Filter(OfType(kind), here);
      if n == z.name.labels && kind == TYPE_NS && found == [] then [DefaultNs(z)] else found
  }

  function Data(v: View, n: Name, kind: nat): seq<RR> { Select(v.zone, At(v.records, n), n, kind) }

  method LookupView(v: View, n: Name, kind: nat) returns (out: seq<RR>)
    ensures out == Data(v, n, kind)
  {
    if n == v.zone.name.labels && kind == TYPE_SOA {
      return [Soa(v.zone)];
    }
    var here := At(v.records, n);
    out := [];
    for i := 0 to |here|
      invariant out == Filter(OfType(kind), here[..i])
    {
      FilterSplit(OfType(kind), here, i);
      if here[i].Type() == kind {
        out := out + [here[i]];
      }
    }
    assert here[..|here|] == here;
    if n == v.zone.name.labels && kind == TYPE_NS && |out| == 0 {
      return [DefaultNs(v.zone)];
    }
  }

  // ---------- following aliases ----------

  datatype Ending = Outside | Answered | NoData(zone: Zone) | NoName(zone: Zone) | GaveUp

  datatype Trail = Trail(answer: seq<RR>, ending: Ending)

  /** What the snapshot has to say about one name. */
  datatype Finding =
    | NoZone
    | Found(data: seq<RR>)
    | Leads(aliases: seq<RR>, target: Name)
    | Absent(zone: Zone, known: bool)

  function Look(t: Views, n: Name, kind: nat): Finding {
    var v := Closest(t, n);
    if v.None? then NoZone
    else if Data(v.value, n, kind) != [] then Found(Data(v.value, n, kind))
    else
      var aliases := Data(v.value, n, TYPE_CNAME);
      if aliases != [] && aliases[0].data.Alias? then Leads(aliases, aliases[0].data.target)
      else Absent(v.value.zone, n in v.value.names)
  }

  function Follow(t: Views, n: Name, kind: nat, fuel: nat): Trail
    decreases fuel
  {
    if fuel == 0 then Trail([], GaveUp)
    else
      match Look(t, n, kind)
      case NoZone => Trail([], Outside)
      case Found(data) => Trail(data, Answered)
      case Leads(aliases, target) =>
        var rest := Follow(t, target, kind, fuel - 1);
        Trail(aliases + rest.answer, rest.ending)
      case Absent(zone, known) => Trail([], if known then NoData(zone) else NoName(zone))
  }

  /** The reply that a trail becomes. */
  function ReplyFor(q: Msg, trail: Trail): Msg {
    var m := Reply(q, SUCCESS).(authoritative := true, recursionAvailable := true);
    match trail.ending
    case GaveUp => m.(rcode := SERVER_FAILURE)
    case NoData(z) => m.(answer := trail.answer, ns := [Soa(z)])
    case NoName(z) => m.(answer := trail.answer, ns := [Soa(z)], rcode := NAME_ERROR)
    case _ => m.(answer := trail.answer)
  }

  /** The answer of the zones to a query; nothing if no zone is responsible. */
  function Lookup(t: Views, q: Msg): Option<Msg> {
    if |q.questions| != 1 || q.questions[0].qclass != CLASS_INET then None
    else
      var n := Lower(q.questions[0].name);
      if Closest(t, n).None? then None else Some(ReplyFor(q, Follow(t, n, q.questions[0].qtype, MAX_NAMES)))
  }

  /** Every alias of the snapshot carries its target. */
  ghost predicate AliasesCarryTargets(t: Views) {
    forall z, n, rr :: z in t && rr in At(t[z].records, n) && rr.Type() == TYPE_CNAME ==> rr.data.Alias?
  }

  lemma ClosestIsEntry(t: Views, n: Name)
    requires Closest(t, n).Some?
    ensures exists z :: z in t && t[z] == Closest(t, n).value && AtOrBelow(n, z)
    decreases |n|
  {
    if n in t {
      assert AtOrBelow(n, n);
    } else {
      ClosestIsEntry(t, n[1..]);
      var z :| z in t && t[z] == Closest(t, n[1..]).value && AtOrBelow(n[1..], z);
    }
  }

  lemma AliasHasTarget(t: Views, n: Name)
    requires AliasesCarryTargets(t) && Closest(t, n).Some?
    ensures var aliases := Data(Closest(t, n).value, n, TYPE_CNAME); aliases != [] ==> aliases[0].data.Alias?
  {
    ClosestIsEntry(t, n);
    var v := Closest(t, n).value;
    FilterMembers(OfType(TYPE_CNAME), At(v.records, n));
    var aliases := Data(v, n, TYPE_CNAME);
    if aliases != [] {
      assert aliases[0] in aliases;
    }
  }

  method LookAt(t: Views, n: Name, kind: nat) returns (out: Finding)
    requires AliasesCarryTargets(t)
    ensures out == Look(t, n, kind)
  {
    var owner := WalkUp(t, n);
    if owner.None? {
      return NoZone;
    }
    var data := LookupView(owner.value, n, kind);
    if |data| > 0 {
      return Found(data);
    }
    var aliases := LookupView(owner.value, n, TYPE_CNAME);
    if |aliases| > 0 {
      AliasHasTarget(t, n);
      return Leads(aliases, aliases[0].data.target);
    }
    return Absent(owner.value.zone, n in owner.value.names);
  }

  /** A trail with records before it. */
  function Before(answer: seq<RR>, trail: Trail): Trail { Trail(answer + trail.answer, trail.ending) }

  lemma BeforeTwice(a: seq<RR>, b: seq<RR>, trail: Trail)
    ensures Before(a, Before(b, trail)) == Before(a + b, trail) && Before([], trail) == trail
  {
    assert a + (b + trail.answer) == (a + b) + trail.answer && [] + trail.answer == trail.answer;
  }

  /** Where a name leads on, its trail is that of the next name behind its aliases. */
  lemma {:induction false} FollowStep(t: Views, n: Name, kind: nat, k: nat)
    requires k > 0
    ensures match Look(t, n, kind)
            case NoZone => Follow(t, n, kind, k) == Trail([], Outside)
            case Found(data) => Follow(t, n, kind, k) == Trail(data, Answered)
            case Leads(aliases, target) => Follow(t, n, kind, k) == Before(aliases, Follow(t, target, kind, k - 1))
            case Absent(zone, known) => Follow(t, n, kind, k) == Trail([], if known then NoData(zone) else NoName(zone))
  {
  }

  /** The lookup loop: at most sixteen names, each answered from its own zone. */
  method FollowFrom(t: Views, start: Name, kind: nat) returns (trail: Trail)
    requires AliasesCarryTargets(t)
    ensures trail == Follow(t, start, kind, MAX_NAMES)
  {
    var name := start;
    var answer: seq<RR> := [];
    BeforeTwice([], [], Follow(t, start, kind, MAX_NAMES));
    for depth := 0 to MAX_NAMES
      invariant Follow(t, start, kind, MAX_NAMES) == Before(answer, Follow(t, name, kind, MAX_NAMES - depth))
    {
      var finding := LookAt(t, name, kind);
      FollowStep(t, name, kind, MAX_NAMES - depth);
      match finding {
        case NoZone => return Trail(answer + [], Outside);
        case Found(data) => return Trail(answer + data, Answered);
        case Absent(zone, known) => return Trail(answer + [], if known then NoData(zone) else NoName(zone));
        case Leads(aliases, target) =>
          BeforeTwice(answer, aliases, Follow(t, target, kind, MAX_NAMES - depth - 1));
          name, answer := target, answer + aliases;
      }
    }
    return Trail(answer + [], GaveUp);
  }

  method Answer(t: Views, q: Msg) returns (out: Option<Msg>)
    requires AliasesCarryTargets(t)
    ensures out == Lookup(t, q)
  {
    if |q.questions| != 1 || q.questions[0].qclass != CLASS_INET {
      return None;
    }
    var name := Lower(q.questions[0].name);
    var owner := WalkUp(t, name);
    if owner.None? {
      return None;
    }
    var trail := FollowFrom(t, name, q.questions[0].qtype);
    return Some(ReplyFor(q, trail));
  }

  // ---------- accepted snapshots never give up ----------

  /** What compiling guarantees about a snapshot. */
  ghost predicate Served(t: Views, zs: seq<Zone>) {
    && t == SnapshotOf(zs).byName && DistinctNames(zs) && LoopFree(t)
    && (forall i :: 0 <= i < |zs| ==> Ready(zs[i]) && Consistent(Rrs(zs[i].records)))
  }

  lemma CompiledIsServed(all: seq<Zone>)
    requires CompileSpec(all).Some?
    ensures Served(CompileSpec(all).value.byName, NormalizeAll(all))
  {
    forall i | 0 <= i < |all|
      ensures Ready(NormalizeAll(all)[i]) && Consistent(Rrs(NormalizeAll(all)[i].records))
    {
      NormalizedReady(all, i);
      assert GoodZone(NormalizeAll(all)[i]);
    }
  }

  lemma {:induction false} SnapshotEntry(zs: seq<Zone>, z: Name)
    requires DistinctNames(zs) && z in SnapshotOf(zs).byName
    ensures exists i :: 0 <= i < |zs| && zs[i].name.labels == z && SnapshotOf(zs).byName[z] == ViewOf(zs[i])
  {
    var last := zs[|zs| - 1];
    if last.name.labels != z {
      SnapshotEntry(zs[..|zs| - 1], z);
      var i :| 0 <= i < |zs| - 1 && zs[..|zs| - 1][i].name.labels == z && SnapshotOf(zs[..|zs| - 1]).byName[z] == ViewOf(zs[..|zs| - 1][i]);
      assert zs[i] == zs[..|zs| - 1][i];
    }
  }

  /** The zone responsible for a name: the one with the longest name around it. */
  ghost predicate Responsible(zs: seq<Zone>, n: Name, z: Zone) {
    z in zs && AtOrBelow(n, z.name.labels) && forall y :: y in zs && AtOrBelow(n, y.name.labels) ==> |y.name.labels| <= |z.name.labels|
  }

  ghost predicate Unclaimed(zs: seq<Zone>, n: Name) { forall z :: z in zs ==> !AtOrBelow(n, z.name.labels) }

  lemma FindMeansResponsible(t: Views, zs: seq<Zone>, n: Name)
    requires Served(t, zs)
    ensures Closest(t, n).None? <==> Unclaimed(zs, n)
    ensures Closest(t, n).Some? ==> Responsible(zs, n, Closest(t, n).value.zone) && Closest(t, n).value == ViewOf(Closest(t, n).value.zone)
  {
    forall z | z in t
      ensures exists i :: 0 <= i < |zs| && zs[i].name.labels == z && t[z] == ViewOf(zs[i])
    {
      SnapshotEntry(zs, z);
    }
    forall i | 0 <= i < |zs|
      ensures zs[i].name.labels in t
    {
      SnapshotNames(zs, zs[i].name.labels);
    }
    forall z | z in t
      ensures z != []
    {
      var i :| 0 <= i < |zs| && zs[i].name.labels == z && t[z] == ViewOf(zs[i]);
    }
    ClosestIsLongest(t, n);
    if Closest(t, n).Some? {
      var d :| d in t && AtOrBelow(n, d) && Closest(t, n).value == t[d] && forall x :: x in t && AtOrBelow(n, x) ==> |x| <= |d|;
      var i :| 0 <= i < |zs| && zs[i].name.labels == d && t[d] == ViewOf(zs[i]);
      assert zs[i] in zs;
    }
  }

  lemma ServedCarriesTargets(t: Views, zs: seq<Zone>)
    requires Served(t, zs)
    ensures AliasesCarryTargets(t)
  {
    forall z, n, rr | z in t && rr in At(t[z].records, n) && rr.Type() == TYPE_CNAME
      ensures rr.data.Alias?
    {
      SnapshotEntry(zs, z);
      var i :| 0 <= i < |zs| && zs[i].name.labels == z && t[z] == ViewOf(zs[i]);
      GroupedAt(Rrs(zs[i].records), n);
      FilterMembers(OwnedBy(n), Rrs(zs[i].records));
      assert Servable(rr, z);
    }
  }

  lemma {:induction false} FirstAliasOfType(here: seq<RR>)
    requires forall rr :: rr in here ==> (rr.Type() == TYPE_CNAME <==> rr.data.Alias?)
    ensures var aliases := Filter(OfType(TYPE_CNAME), here);
            FirstAlias(here) == if aliases == [] || !aliases[0].data.Alias? then None else Some(aliases[0].data.target)
  {
    if here != [] {
      assert here[0] in here;
      FirstAliasOfType(here[1..]);
    }
  }

  lemma RecordsHere(t: Views, zs: seq<Zone>, n: Name)
    requires Served(t, zs) && Closest(t, n).Some?
    ensures var v := Closest(t, n).value;
            && At(v.records, n) == RecordsAt(Rrs(v.zone.records), n) && Ready(v.zone)
            && forall rr :: rr in At(v.records, n) ==>
                 Servable(rr, v.zone.name.labels) && rr.owner == n && (rr.data.Alias? ==> At(v.records, n) == [rr])
  {
    FindMeansResponsible(t, zs, n);
    var v := Closest(t, n).value;
    var i :| 0 <= i < |zs| && zs[i] == v.zone;
    var rrs := Rrs(v.zone.records);
    GroupedAt(rrs, n);
    FilterMembers(OwnedBy(n), rrs);
    forall rr | rr in RecordsAt(rrs, n) && rr.data.Alias?
      ensures RecordsAt(rrs, n) == [rr]
    {
      LoneAlias(rrs, n, rr);
    }
  }

  /** Every name ends within sixteen names, wherever it is: also one whose alias sits in
      a parent zone that a closer zone shadows. */
  lemma EveryNameEnds(t: Views, zs: seq<Zone>, n: Name)
    requires Served(t, zs)
    ensures Ends(t, n, MAX_NAMES)
  {
    if AliasAt(t, n).Some? {
      ClosestIsEntry(t, n);
      var z :| z in t && t[z] == Closest(t, n).value && AtOrBelow(n, z);
      assert n in t[z].records && FirstAlias(t[z].records[n]).Some?;
    }
  }

  /** Looking sees an alias exactly where the loop check saw one. */
  lemma LookFollowsAlias(t: Views, zs: seq<Zone>, n: Name, kind: nat)
    requires Served(t, zs)
    ensures var f := Look(t, n, kind); f.Leads? ==> AliasAt(t, n) == Some(f.target)
    ensures var f := Look(t, n, kind); f.Absent? ==> AliasAt(t, n) == None
  {
    var v := Closest(t, n);
    if v.Some? {
      RecordsHere(t, zs, n);
      FirstAliasOfType(At(v.value.records, n));
    }
  }

  lemma {:induction false} EndingFollow(t: Views, zs: seq<Zone>, n: Name, kind: nat, k: nat)
    requires Served(t, zs) && Ends(t, n, k)
    ensures !Follow(t, n, kind, k).ending.GaveUp?
    decreases k
  {
    LookFollowsAlias(t, zs, n, kind);
    var f := Look(t, n, kind);
    if f.Leads? {
      EndingFollow(t, zs, f.target, kind, k - 1);
    }
  }

  /** A lookup in an accepted snapshot never fails: no query gets SERVFAIL. */
  lemma LookupNeverFails(all: seq<Zone>, q: Msg)
    requires CompileSpec(all).Some? && Lookup(CompileSpec(all).value.byName, q).Some?
    ensures Lookup(CompileSpec(all).value.byName, q).value.rcode in {SUCCESS, NAME_ERROR}
  {
    var t, zs := CompileSpec(all).value.byName, NormalizeAll(all);
    CompiledIsServed(all);
    var n := Lower(q.questions[0].name);
    EveryNameEnds(t, zs, n);
    EndingFollow(t, zs, n, q.questions[0].qtype, MAX_NAMES);
  }

  // ---------- what an answer means ----------

  /** The authority record of a zone. */
  predicate IsAuthority(rr: RR, z: Zone) {
    && rr.owner == z.name.labels && rr.ttl == 60
    && rr.data == Authority(z.primary.labels, z.contact.labels, z.revision, 60)
  }

  /** The name server a zone without any names instead. */
  predicate IsDefaultServer(rr: RR, z: Zone) {
    rr.owner == z.name.labels && rr.ttl == 300 && rr.data == Raw(TYPE_NS, Content(z.primary.labels, 0))
  }

  function OwnedAs(n: Name, kind: nat): RR -> bool { (rr: RR) => rr.owner == n && rr.Type() == kind }

  /** The data of a zone for a name and a type: its records of that owner and type in
      order, but the apex has one authority record, and a name server in any case. */
  ghost predicate HasData(z: Zone, n: Name, kind: nat, data: seq<RR>) {
    var own := Filter(OwnedAs(n, kind), Rrs(z.records));
    if n == z.name.labels && kind == TYPE_SOA then |data| == 1 && IsAuthority(data[0], z)
    else if n == z.name.labels && kind == TYPE_NS && own == [] then |data| == 1 && IsDefaultServer(data[0], z)
    else data == own
  }

  lemma {:induction false} FilterTwice(n: Name, kind: nat, rrs: seq<RR>)
    ensures Filter(OfType(kind), RecordsAt(rrs, n)) == Filter(OwnedAs(n, kind), rrs)
  {
    if rrs != [] {
      FilterTwice(n, kind, rrs[1..]);
    }
  }

  lemma SelectMeans(z: Zone, n: Name, kind: nat, data: seq<RR>)
    ensures HasData(z, n, kind, data) <==> data == Select(z, RecordsAt(Rrs(z.records), n), n, kind)
  {
    FilterTwice(n, kind, Rrs(z.records));
    if HasData(z, n, kind, data) && n == z.name.labels {
      assert |data| == 1 ==> data == [data[0]];
    }
  }

  /** A name exists in its zone if it is the apex or some record is at or below it. */
  ghost predicate Exists(z: Zone, n: Name) { n == z.name.labels || exists rr :: rr in Rrs(z.records) && AtOrBelow(rr.owner, n) }

  /** The end of a path: no zone is responsible, or the responsible zone has the data,
      or it has neither data nor alias. */
  ghost predicate EndsAt(zs: seq<Zone>, kind: nat, n: Name, answer: seq<RR>, ending: Ending) {
    || (Unclaimed(zs, n) && answer == [] && ending == Outside)
    || exists z :: Responsible(zs, n, z) && HasData(z, n, kind, answer)
         && if answer != [] then ending == Answered
            else && (forall rr :: rr in Rrs(z.records) && rr.owner == n ==> !rr.data.Alias?)
                 && ending == if Exists(z, n) then NoData(z) else NoName(z)
  }

  /** One alias along the path: the only record of its owner in the responsible zone. */
  ghost predicate StepsTo(zs: seq<Zone>, kind: nat, n: Name, rr: RR, next: Name) {
    && rr.data == Alias(next) && rr.owner == n
    && exists z :: Responsible(zs, n, z) && HasData(z, n, kind, [])
         && rr in Rrs(z.records) && forall x :: x in Rrs(z.records) && x.owner == n ==> x == rr
  }

  /** The meaning of an answer, said by the zones alone: a path of names from the
      question, each but the last an alias for the next. */
  ghost predicate Means(zs: seq<Zone>, kind: nat, path: seq<Name>, answer: seq<RR>, ending: Ending) {
    path != []
    && if |path| == 1 then EndsAt(zs, kind, path[0], answer, ending)
       else answer != [] && StepsTo(zs, kind, path[0], answer[0], path[1]) && Means(zs, kind, path[1..], answer[1..], ending)
  }

  /** An alias is alone at its name. */
  lemma LoneAlias(rrs: seq<RR>, n: Name, rr: RR)
    requires Consistent(rrs) && rr in RecordsAt(rrs, n) && rr.Type() == TYPE_CNAME
    ensures RecordsAt(rrs, n) == [rr]
  {
    FilterMembers(OwnedBy(n), rrs);
    var i :| 0 <= i < |rrs| && rrs[i] == rr;
    forall j | 0 <= j < |rrs| && j != i
      ensures rrs[j].owner != n
    {
      assert j < i ==> Compatible(rrs[j], rrs[i]);
      assert i < j ==> Compatible(rrs[i], rrs[j]);
    }
    NoneOwned(rrs[..i], n);
    NoneOwned(rrs[i + 1..], n);
    FilterSplit(OwnedBy(n), rrs, i);
  }

  lemma {:induction false} NoneOwned(rrs: seq<RR>, n: Name)
    requires forall i :: 0 <= i < |rrs| ==> rrs[i].owner != n
    ensures RecordsAt(rrs, n) == []
  {
    if rrs != [] {
      NoneOwned(rrs[1..], n);
    }
  }

  lemma AbsentMeans(t: Views, zs: seq<Zone>, n: Name, kind: nat)
    requires Served(t, zs) && Look(t, n, kind).Absent?
    ensures var f := Look(t, n, kind); EndsAt(zs, kind, n, [], if f.known then NoData(f.zone) else NoName(f.zone))
  {
    FindMeansResponsible(t, zs, n);
    RecordsHere(t, zs, n);
    var here, z := At(Closest(t, n).value.records, n), Closest(t, n).value.zone;
    FirstAliasOfType(here);
    NoAliasMeans(here);
    SelectMeans(z, n, kind, []);
    NoneOwnedIsAlias(z, n);
    ExistsMeans(z, n);
    assert Responsible(zs, n, z);
  }

  lemma NoneOwnedIsAlias(z: Zone, n: Name)
    requires forall rr :: rr in RecordsAt(Rrs(z.records), n) ==> !rr.data.Alias?
    ensures forall rr :: rr in Rrs(z.records) && rr.owner == n ==> !rr.data.Alias?
  {
    FilterMembers(OwnedBy(n), Rrs(z.records));
  }

  lemma ExistsMeans(z: Zone, n: Name)
    requires Ready(z) && AtOrBelow(n, z.name.labels)
    ensures n in Names(Rrs(z.records), z.name.labels) <==> Exists(z, n)
  {
    NamesMembers(Rrs(z.records), z.name.labels, n);
  }

  lemma LeadsMeans(t: Views, zs: seq<Zone>, n: Name, kind: nat)
    requires Served(t, zs) && Look(t, n, kind).Leads?
    ensures var f := Look(t, n, kind); |f.aliases| == 1 && StepsTo(zs, kind, n, f.aliases[0], f.target)
  {
    FindMeansResponsible(t, zs, n);
    RecordsHere(t, zs, n);
    var here, z := At(Closest(t, n).value.records, n), Closest(t, n).value.zone;
    FilterMembers(OfType(TYPE_CNAME), here);
    FilterMembers(OwnedBy(n), Rrs(z.records));
    assert Look(t, n, kind).aliases[0] in Look(t, n, kind).aliases;
    SelectMeans(z, n, kind, []);
    assert Responsible(zs, n, z);
  }

  /** What looking finds is what the zones say. */
  lemma LookMeans(t: Views, zs: seq<Zone>, n: Name, kind: nat)
    requires Served(t, zs)
    ensures match Look(t, n, kind)
            case NoZone => EndsAt(zs, kind, n, [], Outside)
            case Found(data) => EndsAt(zs, kind, n, data, Answered)
            case Absent(zone, known) => EndsAt(zs, kind, n, [], if known then NoData(zone) else NoName(zone))
            case Leads(aliases, target) => |aliases| == 1 && StepsTo(zs, kind, n, aliases[0], target)
  {
    match Look(t, n, kind) {
      case Absent(_, _) => AbsentMeans(t, zs, n, kind);
      case Leads(_, _) => LeadsMeans(t, zs, n, kind);
      case NoZone => FindMeansResponsible(t, zs, n);
      case Found(_) =>
        FindMeansResponsible(t, zs, n);
        RecordsHere(t, zs, n);
        SelectMeans(Closest(t, n).value.zone, n, kind, Look(t, n, kind).data);
        assert Responsible(zs, n, Closest(t, n).value.zone);
    }
  }

  lemma {:induction false} NoAliasMeans(here: seq<RR>)
    requires FirstAlias(here).None?
    ensures forall rr :: rr in here ==> !rr.data.Alias?
  {
    if here != [] {
      NoAliasMeans(here[1..]);
      assert here == [here[0]] + here[1..];
    }
  }

  /** Lookup agrees with the meaning: the answer is that of a path of at most sixteen
      names, the zones decide each step, and a name error is reported exactly when the
      last name is no apex and nothing is at or below it. */
  lemma {:induction false} FollowMeans(t: Views, zs: seq<Zone>, n: Name, kind: nat, k: nat) returns (path: seq<Name>)
    requires Served(t, zs) && Ends(t, n, k)
    ensures 1 <= |path| <= k && path[0] == n
    ensures Means(zs, kind, path, Follow(t, n, kind, k).answer, Follow(t, n, kind, k).ending)
    decreases k
  {
    var f := Look(t, n, kind);
    if f.Leads? {
      LookFollowsAlias(t, zs, n, kind);
      var rest := FollowMeans(t, zs, f.target, kind, k - 1);
      FollowLeads(t, zs, n, kind, k, rest);
      path := [n] + rest;
    } else {
      FollowEnds(t, zs, n, kind, k);
      path := [n];
    }
  }

  lemma {:induction false} FollowLeads(t: Views, zs: seq<Zone>, n: Name, kind: nat, k: nat, rest: seq<Name>)
    requires Served(t, zs) && k > 0 && Look(t, n, kind).Leads? && rest != [] && rest[0] == Look(t, n, kind).target
    requires var tail := Follow(t, rest[0], kind, k - 1); Means(zs, kind, rest, tail.answer, tail.ending)
    ensures Means(zs, kind, [n] + rest, Follow(t, n, kind, k).answer, Follow(t, n, kind, k).ending)
  {
    var f := Look(t, n, kind);
    LeadsMeans(t, zs, n, kind);
    FollowStep(t, n, kind, k);
    MeansOneMore(zs, kind, n, f.aliases[0], rest, Follow(t, f.target, kind, k - 1));
    assert f.aliases == [f.aliases[0]];
  }

  lemma {:induction false} FollowEnds(t: Views, zs: seq<Zone>, n: Name, kind: nat, k: nat)
    requires Served(t, zs) && k > 0 && !Look(t, n, kind).Leads?
    ensures Means(zs, kind, [n], Follow(t, n, kind, k).answer, Follow(t, n, kind, k).ending)
  {
    LookMeans(t, zs, n, kind);
    FollowStep(t, n, kind, k);
  }

  /** A step before a path. */
  lemma {:induction false} MeansOneMore(zs: seq<Zone>, kind: nat, n: Name, rr: RR, path: seq<Name>, rest: Trail)
    requires path != [] && StepsTo(zs, kind, n, rr, path[0]) && Means(zs, kind, path, rest.answer, rest.ending)
    ensures Means(zs, kind, [n] + path, Before([rr], rest).answer, rest.ending)
  {
    assert ([n] + path)[1..] == path && ([rr] + rest.answer)[1..] == rest.answer;
  }

  ghost predicate OneResponsible(zs: seq<Zone>, n: Name) {
    forall z, y :: Responsible(zs, n, z) && Responsible(zs, n, y) ==> z == y
  }

  lemma AtMostOneResponsible(zs: seq<Zone>, n: Name)
    requires DistinctNames(zs)
    ensures OneResponsible(zs, n)
  {
    forall z, y | Responsible(zs, n, z) && Responsible(zs, n, y)
      ensures z == y
    {
    }
  }

  lemma EndIsUnique(zs: seq<Zone>, kind: nat, n: Name, a: seq<RR>, e: Ending, a': seq<RR>, e': Ending)
    requires OneResponsible(zs, n) && EndsAt(zs, kind, n, a, e) && EndsAt(zs, kind, n, a', e')
    ensures a == a' && e == e'
  {
    forall z | Responsible(zs, n, z) && HasData(z, n, kind, a) && HasData(z, n, kind, a') ensures a == a' {
      SelectMeans(z, n, kind, a);
      SelectMeans(z, n, kind, a');
    }
  }

  lemma StepIsUnique(zs: seq<Zone>, kind: nat, n: Name, rr: RR, next: Name, rr': RR, next': Name)
    requires OneResponsible(zs, n) && StepsTo(zs, kind, n, rr, next) && StepsTo(zs, kind, n, rr', next')
    ensures rr == rr' && next == next'
  {
    var z :| Responsible(zs, n, z) && rr in Rrs(z.records) && forall x :: x in Rrs(z.records) && x.owner == n ==> x == rr;
    assert rr' in Rrs(z.records);
  }

  /** A query has at most one meaning. */
  lemma {:induction false} MeaningIsUnique(zs: seq<Zone>, kind: nat, p: seq<Name>, a: seq<RR>, e: Ending, p': seq<Name>, a': seq<RR>, e': Ending)
    requires DistinctNames(zs) && Means(zs, kind, p, a, e) && Means(zs, kind, p', a', e') && p[0] == p'[0]
    ensures p == p' && a == a' && e == e'
    decreases |p|
  {
    var n := p[0];
    AtMostOneResponsible(zs, n);
    if |p| == 1 {
      if |p'| > 1 {
        NoStepFromEnd(zs, kind, n, a, e, a'[0], p'[1]);
      }
      EndIsUnique(zs, kind, n, a, e, a', e');
    } else {
      if |p'| == 1 {
        NoStepFromEnd(zs, kind, n, a', e', a[0], p[1]);
      }
      StepIsUnique(zs, kind, n, a[0], p[1], a'[0], p'[1]);
      MeaningIsUnique(zs, kind, p[1..], a[1..], e, p'[1..], a'[1..], e');
      assert a == [a[0]] + a[1..] && a' == [a'[0]] + a'[1..];
      assert p == [n] + p[1..] && p' == [n] + p'[1..];
    }
  }

  lemma NoStepFromEnd(zs: seq<Zone>, kind: nat, n: Name, a: seq<RR>, e: Ending, rr: RR, next: Name)
    requires OneResponsible(zs, n) && EndsAt(zs, kind, n, a, e)
    ensures !StepsTo(zs, kind, n, rr, next)
  {
    forall z | Responsible(zs, n, z) && HasData(z, n, kind, []) && rr in Rrs(z.records) && rr.owner == n
      ensures !rr.data.Alias?
    {
      SelectMeans(z, n, kind, []);
      SelectMeans(z, n, kind, a);
    }
  }

  /** The reply says what was found. It repeats identifier and question, is authoritative,
      and denies the name exactly if it does not exist; a denial carries the authority
      record of its zone. */
  ghost predicate Conveys(q: Msg, answer: seq<RR>, ending: Ending, reply: Msg) {
    && reply.id == q.id && reply.opcode == q.opcode && reply.response && reply.authoritative && reply.recursionAvailable
    && !reply.truncated && !reply.authenticated && |q.questions| == 1 && reply.questions == [q.questions[0]]
    && reply.recursionDesired == (q.opcode == 0 && q.recursionDesired)
    && reply.checkingDisabled == (q.opcode == 0 && q.checkingDisabled)
    && reply.answer == answer && reply.extra == []
    && (reply.rcode == NAME_ERROR <==> ending.NoName?) && (reply.rcode == SUCCESS <==> !ending.NoName?)
    && if ending.NoData? || ending.NoName? then |reply.ns| == 1 && IsAuthority(reply.ns[0], ending.zone) else reply.ns == []
  }

  lemma ReplyConveys(q: Msg, trail: Trail)
    requires |q.questions| == 1 && !trail.ending.GaveUp?
    ensures Conveys(q, trail.answer, trail.ending, ReplyFor(q, trail))
  {
  }

  /** For every accepted set of zones and every query they claim, the reply is the one
      and only meaning of the question. */
  lemma LookupMeans(all: seq<Zone>, q: Msg) returns (path: seq<Name>, trail: Trail)
    requires CompileSpec(all).Some? && Lookup(CompileSpec(all).value.byName, q).Some?
    ensures 1 <= |path| <= MAX_NAMES && path[0] == Lower(q.questions[0].name)
    ensures Means(NormalizeAll(all), q.questions[0].qtype, path, trail.answer, trail.ending)
    ensures Conveys(q, trail.answer, trail.ending, Lookup(CompileSpec(all).value.byName, q).value) && !trail.ending.GaveUp?
  {
    var t, zs := CompileSpec(all).value.byName, NormalizeAll(all);
    var n, kind := Lower(q.questions[0].name), q.questions[0].qtype;
    CompiledIsServed(all);
    EveryNameEnds(t, zs, n);
    EndingFollow(t, zs, n, kind, MAX_NAMES);
    path := FollowMeans(t, zs, n, kind, MAX_NAMES);
    trail := Follow(t, n, kind, MAX_NAMES);
    ReplyConveys(q, trail);
  }

  /** What a reply from zones must be: the meaning of the question by the zones alone. */
  ghost predicate Explained(all: seq<Zone>, q: Msg, reply: Msg)
    requires Normalizable(all) && |q.questions| == 1
  {
    exists path: seq<Name>, trail: Trail ::
      && 1 <= |path| <= MAX_NAMES && path[0] == Lower(q.questions[0].name)
      && Means(NormalizeAll(all), q.questions[0].qtype, path, trail.answer, trail.ending)
      && Conveys(q, trail.answer, trail.ending, reply) && !trail.ending.GaveUp?
  }

  /** No single question of their class for a name some zone encloses. */
  ghost predicate NotTheirs(zs: seq<Zone>, q: Msg) {
    |q.questions| != 1 || q.questions[0].qclass != 1 || Unclaimed(zs, Lower(q.questions[0].name))
  }

  datatype FromZones = Refused | Replied(reply: Option<Msg>)

  /** Compiles zones and answers a query from them. They answer exactly the questions in
      their class for names some zone encloses, and with the meaning of the question. */
  method AnswerFromZones(all: seq<Zone>, q: Msg) returns (out: FromZones)
    ensures out.Refused? <==> CompileSpec(all).None?
    ensures out.Replied? ==> out.reply == Lookup(CompileSpec(all).value.byName, q)
    ensures out.Replied? && out.reply.Some? ==> |q.questions| == 1 && Normalizable(all) && Explained(all, q, out.reply.value)
    ensures out.Replied? ==> Normalizable(all) && (out.reply.None? <==> NotTheirs(NormalizeAll(all), q))
  {
    var s := Compile(all);
    if s.None? {
      return Refused;
    }
    CompiledIsServed(all);
    ServedCarriesTargets(s.value.byName, NormalizeAll(all));
    var reply := Answer(s.value.byName, q);
    if reply.Some? {
      var path, trail := LookupMeans(all, q);
    }
    if |q.questions| == 1 && q.questions[0].qclass == CLASS_INET {
      FindMeansResponsible(s.value.byName, NormalizeAll(all), Lower(q.questions[0].name));
    }
    return Replied(reply);
  }

  // ---------- zone answers are chains ----------

  /** A chain that ends in an alias only if it never reached its data. */
  predicate WellEnded(n: Name, kind: nat, trail: Trail) {
    && Chain(n, trail.answer)
    && (trail.ending.Answered? ==> trail.answer != [])
    && (kind != TYPE_CNAME ==>
          if trail.ending.Answered? then !trail.answer[|trail.answer| - 1].data.Alias? else AllAliases(trail.answer))
  }

  lemma {:induction false} FoundIsChain(t: Views, zs: seq<Zone>, n: Name, kind: nat)
    requires Served(t, zs) && Lower(n) == n && Look(t, n, kind).Found?
    ensures WellEnded(n, kind, Trail(Look(t, n, kind).data, Answered))
  {
    var v := Closest(t, n).value;
    RecordsHere(t, zs, n);
    DataIsChainHere(v.zone, At(v.records, n), n, kind);
  }

  predicate LoneStep(f: Finding, n: Name) {
    f.Leads? && |f.aliases| == 1 && f.aliases[0].owner == n && f.aliases[0].data == Alias(f.target) && Lower(f.target) == f.target
  }

  lemma {:induction false} LeadsByAlias(t: Views, zs: seq<Zone>, n: Name, kind: nat)
    requires Served(t, zs) && Look(t, n, kind).Leads?
    ensures LoneStep(Look(t, n, kind), n)
  {
    var here, aliases := At(Closest(t, n).value.records, n), Look(t, n, kind).aliases;
    RecordsHere(t, zs, n);
    FilterMembers(OfType(TYPE_CNAME), here);
    assert aliases[0] in aliases;
    LeadsMeans(t, zs, n, kind);
  }

  lemma ChainOneMore(n: Name, kind: nat, rr: RR, rest: Trail)
    requires rr.owner == n && Lower(n) == n && rr.data.Alias? && Lower(rr.data.target) == rr.data.target && WellEnded(rr.data.target, kind, rest)
    ensures WellEnded(n, kind, Before([rr], rest))
  {
    var all := [rr] + rest.answer;
    assert all[1..] == rest.answer;
    assert rest.answer != [] ==> all[|all| - 1] == rest.answer[|rest.answer| - 1];
  }

  /** Every answer of the zones is a chain from the question. */
  lemma {:induction false} FollowIsChain(t: Views, zs: seq<Zone>, n: Name, kind: nat, k: nat)
    requires Served(t, zs) && Lower(n) == n
    ensures WellEnded(n, kind, Follow(t, n, kind, k))
    decreases k
  {
    if k > 0 {
      FollowStep(t, n, kind, k);
      match Look(t, n, kind) {
        case Found(_) => FoundIsChain(t, zs, n, kind);
        case Leads(aliases, target) =>
          LeadsByAlias(t, zs, n, kind);
          FollowIsChain(t, zs, target, kind, k - 1);
          ChainOneMore(n, kind, aliases[0], Follow(t, target, kind, k - 1));
          assert aliases == [aliases[0]];
        case _ =>
      }
    }
  }

  lemma DataIsChainHere(z: Zone, here: seq<RR>, n: Name, kind: nat)
    requires Lower(n) == n && Select(z, here, n, kind) != []
    requires forall rr :: rr in here ==> Servable(rr, z.name.labels) && rr.owner == n
    requires forall rr :: rr in here && rr.data.Alias? ==> here == [rr]
    ensures var data := Select(z, here, n, kind);
            Chain(n, data) && (kind != TYPE_CNAME ==> !data[|data| - 1].data.Alias?)
  {
    var data := Select(z, here, n, kind);
    FilterMembers(OfType(kind), here);
    if data == [Soa(z)] || data == [DefaultNs(z)] {
      assert data[1..] == [];
    } else if here != [] && here[0].data.Alias? {
      assert here[0] in here && here == [here[0]];
      assert data == here && data[1..] == [];
    } else {
      PlainDataIsChain(n, here, data);
    }
  }

  lemma PlainDataIsChain(n: Name, here: seq<RR>, data: seq<RR>)
    requires Lower(n) == n && data != [] && (here == [] || !here[0].data.Alias?)
    requires forall rr :: rr in data ==> rr in here && rr.owner == n && rr.Type() != TYPE_RRSIG
    requires forall rr :: rr in here && rr.data.Alias? ==> here == [rr]
    ensures Chain(n, data) && !data[|data| - 1].data.Alias?
  {
    assert forall rr :: rr in here ==> !rr.data.Alias?;
    assert DataOf(n, data);
    DataIsChain(n, data);
    assert data[|data| - 1] in data;
  }

  lemma {:induction false} ReplyIsChain(q: Msg, trail: Trail)
    requires |q.questions| == 1 && WellEnded(Lower(q.questions[0].name), q.questions[0].qtype, trail)
    ensures ChainAnswer(q.questions[0], ReplyFor(q, trail).answer)
  {
  }

  lemma {:induction false} LookupIsChain(t: Views, zs: seq<Zone>, q: Msg)
    requires Served(t, zs) && Lookup(t, q).Some?
    ensures |q.questions| == 1 && ChainAnswer(q.questions[0], Lookup(t, q).value.answer)
  {
    var n, kind := Lower(q.questions[0].name), q.questions[0].qtype;
    LowerIdempotent(q.questions[0].name);
    FollowIsChain(t, zs, n, kind, MAX_NAMES);
    ReplyIsChain(q, Follow(t, n, kind, MAX_NAMES));
  }

  // ---------- answers are record sets ----------

  lemma {:induction false} FilterKeepsConsistent(p: RR -> bool, rrs: seq<RR>)
    requires Consistent(rrs)
    ensures Consistent(Filter(p, rrs))
  {
    if rrs != [] {
      var rest := Filter(p, rrs[1..]);
      FilterKeepsConsistent(p, rrs[1..]);
      FilterMembers(p, rrs[1..]);
      forall j | 0 <= j < |rest| ensures Compatible(rrs[0], rest[j]) {
        assert rest[j] in rest;
        var i :| 0 <= i < |rrs[1..]| && rrs[1..][i] == rest[j];
        assert rrs[i + 1] == rest[j];
      }
    }
  }

  predicate IsRecordSet(data: seq<RR>, n: Name, kind: nat) {
    && (forall i :: 0 <= i < |data| ==> data[i].owner == n && data[i].Type() == kind)
    && (forall i, j :: 0 <= i < j < |data| ==> data[i] != data[j] && data[i].ttl == data[j].ttl)
  }

  lemma FilteredIsRecordSet(here: seq<RR>, n: Name, kind: nat)
    requires Consistent(here) && forall rr :: rr in here ==> rr.owner == n
    ensures IsRecordSet(Filter(OfType(kind), here), n, kind)
  {
    var data := Filter(OfType(kind), here);
    FilterKeepsConsistent(OfType(kind), here);
    FilterMembers(OfType(kind), here);
    forall j | 0 <= j < |data| ensures data[j].owner == n && data[j].Type() == kind {
      assert data[j] in data;
    }
    forall j, k | 0 <= j < k < |data| ensures data[j] != data[k] && data[j].ttl == data[k].ttl {
      assert Compatible(data[j], data[k]);
    }
  }

  lemma {:induction false} SelectIsRecordSet(z: Zone, here: seq<RR>, n: Name, kind: nat)
    requires Consistent(here) && forall rr :: rr in here ==> rr.owner == n
    ensures IsRecordSet(Select(z, here, n, kind), n, kind)
  {
    FilteredIsRecordSet(here, n, kind);
  }

  lemma RecordsHereConsistent(t: Views, zs: seq<Zone>, n: Name)
    requires Served(t, zs) && Closest(t, n).Some?
    ensures Consistent(At(Closest(t, n).value.records, n))
  {
    FindMeansResponsible(t, zs, n);
    RecordsHere(t, zs, n);
    var z := Closest(t, n).value.zone;
    var i :| 0 <= i < |zs| && zs[i] == z;
    FilterKeepsConsistent(OwnedBy(n), Rrs(z.records));
  }

  /** What a zone answers for a name and type is a record set: all of that owner and type,
      no record twice, all with one TTL. */
  lemma DataIsRecordSet(t: Views, zs: seq<Zone>, n: Name, kind: nat)
    requires Served(t, zs) && Look(t, n, kind).Found?
    ensures IsRecordSet(Look(t, n, kind).data, n, kind)
  {
    var v := Closest(t, n).value;
    assert Look(t, n, kind).data == Select(v.zone, At(v.records, n), n, kind);
    RecordsHere(t, zs, n);
    RecordsHereConsistent(t, zs, n);
    SelectIsRecordSet(v.zone, At(v.records, n), n, kind);
  }
}
