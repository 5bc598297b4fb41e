/** The answer cache as a value: its lifetime rules and what each operation does to
    the entries, kept most recently used first. */
module CacheSpec {
  import opened Dns

  /** The clock counts nanoseconds, so ages are truncated to whole seconds. */
  const SECOND := 1_000_000_000
  const MAX_NEGATIVE_TTL: U32 := 86400
  const MAX_POSITIVE_TTL: U32 := 604800
  const MAX_WIRE_LENGTH := 16384

  // ---------- lifetimes ----------

  predicate Counted(rr: RR, skipOpt: bool) {
    !skipOpt || rr.Type() != TYPE_OPT
  }

  function LeastTtl(rrs: seq<RR>, bound: U32, skipOpt: bool): U32 {
    if rrs == [] then bound
    else
      var n := |rrs| - 1;
      var least := LeastTtl(rrs[..n], bound, skipOpt);
      if Counted(rrs[n], skipOpt) && rrs[n].ttl < least then rrs[n].ttl else least
  }

  lemma {:induction false} LeastTtlIsLeast(rrs: seq<RR>, bound: U32, skipOpt: bool)
    ensures LeastTtl(rrs, bound, skipOpt) <= bound
    ensures forall rr :: rr in rrs && Counted(rr, skipOpt) ==> LeastTtl(rrs, bound, skipOpt) <= rr.ttl
    ensures LeastTtl(rrs, bound, skipOpt) == bound
         || exists rr :: rr in rrs && Counted(rr, skipOpt) && rr.ttl == LeastTtl(rrs, bound, skipOpt)
  {
    if rrs != [] {
      var n := |rrs| - 1;
      LeastTtlIsLeast(rrs[..n], bound, skipOpt);
      assert rrs == rrs[..n] + [rrs[n]];
    }
  }

  function FirstSoa(rrs: seq<RR>): (soa: Option<RR>)
    ensures soa.Some? ==> soa.value.data.Authority?
  {
    if rrs == [] then None
    else if rrs[0].data.Authority? then Some(rrs[0])
    else FirstSoa(rrs[1..])
  }

  lemma {:induction false} FirstSoaMember(rrs: seq<RR>)
    ensures FirstSoa(rrs).None? <==> forall rr :: rr in rrs ==> !rr.data.Authority?
    ensures FirstSoa(rrs).Some? ==> FirstSoa(rrs).value in rrs
  {
    if rrs != [] {
      FirstSoaMember(rrs[1..]);
      assert rrs == [rrs[0]] + rrs[1..];
    }
  }

  predicate AliasOnly(answer: seq<RR>) {
    forall rr :: rr in answer ==> rr.Type() == TYPE_CNAME || rr.Type() == TYPE_RRSIG
  }

  /** A denial of existence: it names an authority and carries nothing but aliases. */
  predicate Negative(m: Msg) {
    && FirstSoa(m.ns).Some?
    && (m.rcode == NAME_ERROR || (m.rcode == SUCCESS && AliasOnly(m.answer)))
  }

  function Min(a: U32, b: U32): U32 { if a < b then a else b }

  /** For how many seconds `m` may be served; zero means not at all. */
  function Lifetime(m: Msg): U32 {
    if Negative(m) then
      var soa := FirstSoa(m.ns).value;
      LeastTtl(m.answer, Min(Min(soa.ttl, soa.data.minTtl), MAX_NEGATIVE_TTL), false)
    else if m.rcode == SUCCESS && m.answer != [] then
      LeastTtl(m.answer + m.ns + m.extra, MAX_POSITIVE_TTL, true)
    else 0
  }

  function ClampRR(rr: RR, ttl: U32): RR {
    if rr.data.Authority? then rr.(ttl := ttl) else rr
  }

  function ClampSoa(m: Msg, ttl: U32): Msg {
    m.(ns := seq(|m.ns|, i requires 0 <= i < |m.ns| => ClampRR(m.ns[i], ttl)))
  }

  /** What goes on the wire, and into the cache, for a denial. */
  function NormalizeNegative(m: Msg): Msg {
    if Negative(m) then ClampSoa(m, Lifetime(m)) else m
  }

  lemma {:induction false} FirstSoaClamped(ns: seq<RR>, clamped: seq<RR>, ttl: U32)
    requires |clamped| == |ns|
    requires forall i :: 0 <= i < |ns| ==> clamped[i] == ClampRR(ns[i], ttl)
    ensures FirstSoa(clamped).Some? == FirstSoa(ns).Some?
    ensures FirstSoa(ns).Some? ==> FirstSoa(clamped).value == FirstSoa(ns).value.(ttl := ttl)
  {
    if ns != [] {
      FirstSoaMember(ns);
      if !ns[0].data.Authority? {
        FirstSoaClamped(ns[1..], clamped[1..], ttl);
      }
    }
  }

  /** Advertising the lifetime does not change it, so it can be done any number of times. */
  lemma NormalizeNegativeStable(m: Msg)
    ensures Lifetime(NormalizeNegative(m)) == Lifetime(m)
    ensures Negative(NormalizeNegative(m)) == Negative(m)
    ensures NormalizeNegative(NormalizeNegative(m)) == NormalizeNegative(m)
  {
    if Negative(m) {
      var t := Lifetime(m);
      var c := ClampSoa(m, t);
      FirstSoaClamped(m.ns, c.ns, t);
      var soa := FirstSoa(m.ns).value;
      FirstSoaMember(m.ns);
      var bound := Min(Min(soa.ttl, soa.data.minTtl), MAX_NEGATIVE_TTL);
      var bound' := Min(Min(t, soa.data.minTtl), MAX_NEGATIVE_TTL);
      LeastTtlIsLeast(m.answer, bound, false);
      LeastTtlIsLeast(m.answer, bound', false);
      assert ClampSoa(c, t).ns == c.ns;
    }
  }

  /** Whether the configured lifetime replaces the upstream's: only for unsigned
      positive answers in which no record asks not to be kept. */
  predicate Overridable(m: Msg) {
    && !m.truncated && !m.authenticated && m.rcode == SUCCESS && m.answer != []
    && forall rr :: rr in m.answer + m.ns + m.extra ==>
         rr.Type() != TYPE_RRSIG && (rr.Type() == TYPE_OPT || rr.ttl != 0)
  }

  function OverrideRR(rr: RR, ttl: U32): RR {
    if rr.Type() == TYPE_OPT then rr else rr.(ttl := ttl)
  }

  function OverrideAll(rrs: seq<RR>, ttl: U32): seq<RR> {
    seq(|rrs|, i requires 0 <= i < |rrs| => OverrideRR(rrs[i], ttl))
  }

  function NormalizeUpstream(m: Msg, policy: U32): Msg {
    if policy == 0 || !Overridable(m) then m
    else m.(answer := OverrideAll(m.answer, policy), ns := OverrideAll(m.ns, policy), extra := OverrideAll(m.extra, policy))
  }

  // ---------- what lifetimes mean ----------

  predicate FirstSoaAt(rrs: seq<RR>, i: nat) {
    i < |rrs| && rrs[i].data.Authority? && forall j :: 0 <= j < i ==> !rrs[j].data.Authority?
  }

  lemma {:induction false} FirstSoaMeans(rrs: seq<RR>)
    ensures FirstSoa(rrs).Some? <==> exists i: nat :: FirstSoaAt(rrs, i)
    ensures forall i: nat :: FirstSoaAt(rrs, i) ==> FirstSoa(rrs) == Some(rrs[i])
  {
    if rrs != [] {
      if rrs[0].data.Authority? {
        assert FirstSoaAt(rrs, 0);
      } else {
        FirstSoaMeans(rrs[1..]);
        forall i: nat | FirstSoaAt(rrs, i) ensures FirstSoa(rrs) == Some(rrs[i]) {
          assert FirstSoaAt(rrs[1..], i - 1);
        }
        if FirstSoa(rrs).Some? {
          var i: nat :| FirstSoaAt(rrs[1..], i);
          assert FirstSoaAt(rrs, i + 1);
        }
      }
    }
  }

  /** A denial: it names an authority and says that the name does not exist, or has
      nothing in its answer but aliases and signatures. */
  ghost predicate Denies(m: Msg) {
    && (exists i: nat :: FirstSoaAt(m.ns, i))
    && (m.rcode == NAME_ERROR
        || (m.rcode == SUCCESS && forall i :: 0 <= i < |m.answer| ==> m.answer[i].Type() == TYPE_CNAME || m.answer[i].Type() == TYPE_RRSIG))
  }

  /** The least of some caps and of the TTLs of some records. */
  ghost predicate LeastOf(ttl: U32, caps: seq<U32>, rrs: seq<RR>) {
    && (forall i :: 0 <= i < |caps| ==> ttl <= caps[i]) && (forall i :: 0 <= i < |rrs| ==> ttl <= rrs[i].ttl)
    && ((exists i :: 0 <= i < |caps| && ttl == caps[i]) || exists i :: 0 <= i < |rrs| && ttl == rrs[i].ttl)
  }

  function NoOpt(): RR -> bool { (rr: RR) => rr.Type() != TYPE_OPT }

  /** How long a message may be kept. A denial: as long as its answer and the first
      authority record allow, by TTL and by minimum, and at most a day. A positive answer:
      as long as all its records but EDNS allow, and at most a week. Anything else: not
      at all. */
  lemma LifetimeMeans(m: Msg)
    ensures Negative(m) <==> Denies(m)
    ensures Denies(m) ==> forall i: nat :: FirstSoaAt(m.ns, i) ==> LeastOf(Lifetime(m), [m.ns[i].ttl, m.ns[i].data.minTtl, 86400], m.answer)
    ensures !Denies(m) && m.rcode == SUCCESS && m.answer != [] ==> LeastOf(Lifetime(m), [604800], Filter(NoOpt(), m.answer + m.ns + m.extra))
    ensures !Denies(m) && (m.rcode != SUCCESS || m.answer == []) ==> Lifetime(m) == 0
  {
    FirstSoaMeans(m.ns);
    assert Negative(m) <==> Denies(m) by {
      assert AliasOnly(m.answer) <==> forall i :: 0 <= i < |m.answer| ==> m.answer[i].Type() == TYPE_CNAME || m.answer[i].Type() == TYPE_RRSIG;
    }
    if Denies(m) {
      forall i: nat | FirstSoaAt(m.ns, i) ensures LeastOf(Lifetime(m), [m.ns[i].ttl, m.ns[i].data.minTtl, 86400], m.answer) {
        LeastUnderCaps(m.ns[i].ttl, m.ns[i].data.minTtl, m.answer);
      }
    } else if m.rcode == SUCCESS && m.answer != [] {
      LeastPositive(m.answer + m.ns + m.extra);
    }
  }

  lemma LeastUnderCaps(ttl: U32, minTtl: U32, rrs: seq<RR>)
    ensures LeastOf(LeastTtl(rrs, Min(Min(ttl, minTtl), MAX_NEGATIVE_TTL), false), [ttl, minTtl, 86400], rrs)
  {
    var caps, bound := [ttl, minTtl, 86400], Min(Min(ttl, minTtl), MAX_NEGATIVE_TTL);
    LeastTtlIsLeast(rrs, bound, false);
    assert bound == caps[0] || bound == caps[1] || bound == caps[2];
  }

  lemma LeastPositive(rrs: seq<RR>)
    ensures LeastOf(LeastTtl(rrs, MAX_POSITIVE_TTL, true), [604800], Filter(NoOpt(), rrs))
  {
    var least, kept := LeastTtl(rrs, MAX_POSITIVE_TTL, true), Filter(NoOpt(), rrs);
    LeastTtlIsLeast(rrs, MAX_POSITIVE_TTL, true);
    FilterMembers(NoOpt(), rrs);
    forall i | 0 <= i < |kept| ensures least <= kept[i].ttl {
      assert kept[i] in kept;
    }
    if least == MAX_POSITIVE_TTL {
      assert least == [604800][0];
    } else {
      var rr :| rr in rrs && Counted(rr, true) && rr.ttl == least;
      assert rr in kept;
    }
  }

  /** Records that differ in their TTL only. */
  predicate SameButTtl(a: seq<RR>, b: seq<RR>) {
    |a| == |b| && forall i :: 0 <= i < |a| ==> b[i].owner == a[i].owner && b[i].data == a[i].data
  }

  /** Messages that differ in TTLs only. */
  predicate SameButTtls(m: Msg, out: Msg) {
    && out == m.(answer := out.answer, ns := out.ns, extra := out.extra)
    && SameButTtl(m.answer, out.answer) && SameButTtl(m.ns, out.ns) && SameButTtl(m.extra, out.extra)
  }

  /** The authority records of a denial announce its lifetime; nothing else changes. */
  lemma NormalizeNegativeMeans(m: Msg)
    ensures var out := NormalizeNegative(m);
            && SameButTtls(m, out) && out.answer == m.answer && out.extra == m.extra
            && forall i :: 0 <= i < |m.ns| ==>
                 out.ns[i].ttl == if Denies(m) && m.ns[i].data.Authority? then Lifetime(m) else m.ns[i].ttl
  {
    LifetimeMeans(m);
  }

  /** Whether the configured lifetime is taken: a positive answer that is whole and not
      validated, without signatures and without records that may not be kept. */
  ghost predicate TakesOverride(m: Msg) {
    && !m.truncated && !m.authenticated && m.rcode == SUCCESS && m.answer != []
    && forall rr :: rr in m.answer || rr in m.ns || rr in m.extra ==>
         rr.Type() != TYPE_RRSIG && (rr.ttl == 0 ==> rr.Type() == TYPE_OPT)
  }

  /** All TTLs are `ttl` but those of EDNS records, which are as they were. */
  predicate Overridden(a: seq<RR>, b: seq<RR>, ttl: U32) {
    SameButTtl(a, b) && forall i :: 0 <= i < |a| ==> b[i].ttl == if a[i].Type() == TYPE_OPT then a[i].ttl else ttl
  }

  lemma OverrideMeans(rrs: seq<RR>, ttl: U32)
    ensures Overridden(rrs, OverrideAll(rrs, ttl), ttl)
  {
  }

  lemma OverridableMeans(m: Msg)
    ensures Overridable(m) <==> TakesOverride(m)
  {
    assert forall rr :: rr in m.answer + m.ns + m.extra <==> rr in m.answer || rr in m.ns || rr in m.extra;
  }

  /** The configured lifetime replaces all TTLs but those of EDNS records, or none. */
  lemma NormalizeUpstreamMeans(m: Msg, policy: U32)
    ensures policy == 0 || !TakesOverride(m) ==> NormalizeUpstream(m, policy) == m
    ensures policy != 0 && TakesOverride(m) ==>
              var out := NormalizeUpstream(m, policy);
              && out == m.(answer := out.answer, ns := out.ns, extra := out.extra)
              && Overridden(m.answer, out.answer, policy) && Overridden(m.ns, out.ns, policy) && Overridden(m.extra, out.extra, policy)
  {
    OverridableMeans(m);
    OverrideMeans(m.answer, policy);
    OverrideMeans(m.ns, policy);
    OverrideMeans(m.extra, policy);
  }

  // ---------- keys and entries ----------

  /** The formatted key of the server is injective in these six parts: only the
      name can contain a slash, and it comes first. */
  datatype Key = Key(name: Name, qtype: nat, qclass: nat, recursionDesired: bool, checkingDisabled: bool, dnssecOk: bool)

  function FirstOpt(rrs: seq<RR>): Option<RData> {
    if rrs == [] then None
    else if rrs[0].data.Edns? then Some(rrs[0].data)
    else FirstOpt(rrs[1..])
  }

  function KeyOf(q: Msg): Option<Key> {
    if |q.questions| != 1 || q.opcode != 0 || q.answer != [] || q.ns != [] then None
    else
      var opt := FirstOpt(q.extra);
      if opt.Some? && opt.value.Edns? && opt.value.version != 0 then None
      else
        var question := q.questions[0];
        Some(Key(Lower(question.name), question.qtype, question.qclass, q.recursionDesired, q.checkingDisabled,
                 opt.Some? && opt.value.Edns? && opt.value.dnssecOk))
  }

  /** The first EDNS record of a list. */
  predicate FirstEdnsAt(rrs: seq<RR>, i: nat) {
    i < |rrs| && rrs[i].data.Edns? && forall j :: 0 <= j < i ==> !rrs[j].data.Edns?
  }

  lemma {:induction false} FirstOptMeans(rrs: seq<RR>)
    ensures FirstOpt(rrs).None? <==> forall i :: 0 <= i < |rrs| ==> !rrs[i].data.Edns?
    ensures forall i: nat :: FirstEdnsAt(rrs, i) ==> FirstOpt(rrs) == Some(rrs[i].data)
    ensures FirstOpt(rrs).Some? ==> exists i: nat :: FirstEdnsAt(rrs, i)
  {
    if rrs != [] {
      if rrs[0].data.Edns? {
        assert FirstEdnsAt(rrs, 0);
      } else {
        FirstOptMeans(rrs[1..]);
        forall i: nat | FirstEdnsAt(rrs, i) ensures FirstOpt(rrs) == Some(rrs[i].data) {
          assert FirstEdnsAt(rrs[1..], i - 1);
        }
        if FirstOpt(rrs).Some? {
          var i: nat :| FirstEdnsAt(rrs[1..], i);
          assert FirstEdnsAt(rrs, i + 1);
        }
      }
    }
  }

  /** The first EDNS record asks for DNSSEC records. */
  ghost predicate WantsDnssec(q: Msg) { exists i: nat :: FirstEdnsAt(q.extra, i) && q.extra[i].data.dnssecOk }

  /** One plain question, and no EDNS version that is not understood. */
  ghost predicate Plain(q: Msg) {
    && |q.questions| == 1 && q.opcode == 0 && q.answer == [] && q.ns == []
    && forall i: nat :: FirstEdnsAt(q.extra, i) ==> q.extra[i].data.version == 0
  }

  /** Two queries ask for the same: name in any case, type, class, both flags, and DNSSEC
      records or not. */
  ghost predicate SameRequest(p: Msg, q: Msg) {
    && |p.questions| == 1 && |q.questions| == 1
    && Lower(p.questions[0].name) == Lower(q.questions[0].name)
    && p.questions[0].qtype == q.questions[0].qtype && p.questions[0].qclass == q.questions[0].qclass
    && p.recursionDesired == q.recursionDesired && p.checkingDisabled == q.checkingDisabled
    && (WantsDnssec(p) <==> WantsDnssec(q))
  }

  lemma DnssecMeans(q: Msg)
    ensures WantsDnssec(q) <==> FirstOpt(q.extra).Some? && FirstOpt(q.extra).value.Edns? && FirstOpt(q.extra).value.dnssecOk
  {
    FirstOptMeans(q.extra);
  }

  /** Which queries have a key. */
  lemma HasKey(q: Msg)
    ensures KeyOf(q).Some? <==> Plain(q)
  {
    FirstOptMeans(q.extra);
  }

  /** Queries share a key exactly if they ask for the same. */
  lemma SameKeyMeans(p: Msg, q: Msg)
    requires KeyOf(p).Some? && KeyOf(q).Some?
    ensures KeyOf(p) == KeyOf(q) <==> SameRequest(p, q)
  {
    DnssecMeans(p);
    DnssecMeans(q);
  }

  datatype Entry = Entry(key: Key, message: Msg, stored: int, expires: int)

  function WholeSeconds(d: int): int {
    if d >= 0 then d / SECOND else -(-d / SECOND)
  }

  function AgeOf(e: Entry, now: int): U32 {
    WholeSeconds(now - e.stored) % 0x1_0000_0000
  }

  function AgeRR(rr: RR, age: U32): RR {
    if rr.Type() == TYPE_OPT then rr else rr.(ttl := (rr.ttl - age) % 0x1_0000_0000)
  }

  function AgeAll(rrs: seq<RR>, age: U32): seq<RR> {
    seq(|rrs|, i requires 0 <= i < |rrs| => AgeRR(rrs[i], age))
  }

  function Aged(e: Entry, q: Msg, now: int): Msg {
    var age := AgeOf(e, now);
    e.message.(id := q.id, questions := q.questions,
               answer := AgeAll(e.message.answer, age),
               ns := AgeAll(e.message.ns, age),
               extra := AgeAll(e.message.extra, age))
  }

  /** Record for record the same, with TTLs smaller by the seconds that passed, as 32-bit
      numbers; EDNS records are left alone. */
  predicate OlderRecords(stored: seq<RR>, served: seq<RR>, seconds: int) {
    && |served| == |stored|
    && forall i :: 0 <= i < |stored| ==>
         && served[i].owner == stored[i].owner && served[i].data == stored[i].data
         && served[i].ttl == if stored[i].Type() == TYPE_OPT then stored[i].ttl else (stored[i].ttl - seconds) % 0x1_0000_0000
  }

  /** A stored message as it is served to `q` some seconds later. */
  predicate Older(stored: Msg, served: Msg, q: Msg, seconds: int) {
    && served.id == q.id && served.questions == q.questions
    && served == stored.(id := served.id, questions := served.questions, answer := served.answer, ns := served.ns, extra := served.extra)
    && OlderRecords(stored.answer, served.answer, seconds) && OlderRecords(stored.ns, served.ns, seconds)
    && OlderRecords(stored.extra, served.extra, seconds)
  }

  lemma AgedRecords(rrs: seq<RR>, age: U32, seconds: int)
    requires age == seconds % 0x1_0000_0000
    ensures OlderRecords(rrs, AgeAll(rrs, age), seconds)
  {
    forall i | 0 <= i < |rrs| ensures (rrs[i].ttl - age) % 0x1_0000_0000 == (rrs[i].ttl - seconds) % 0x1_0000_0000 {
      SameRest(rrs[i].ttl - age, rrs[i].ttl - seconds, seconds / 0x1_0000_0000);
    }
  }

  lemma SameRest(a: int, b: int, k: int)
    requires a == b + k * 0x1_0000_0000
    ensures a % 0x1_0000_0000 == b % 0x1_0000_0000
  {
  }

  lemma AgedIsOlder(e: Entry, q: Msg, now: int)
    ensures Older(e.message, Aged(e, q, now), q, WholeSeconds(now - e.stored))
  {
    var seconds := WholeSeconds(now - e.stored);
    AgedRecords(e.message.answer, AgeOf(e, now), seconds);
    AgedRecords(e.message.ns, AgeOf(e, now), seconds);
    AgedRecords(e.message.extra, AgeOf(e, now), seconds);
  }

  predicate Live(e: Entry, now: int) { now < e.expires }

  // ---------- operations ----------

  /** Entries are most recently used first. */
  datatype State = State(max: nat, entries: seq<Entry>, hits: nat, misses: nat, upstreamTtl: U32)

  function Empty(max: nat): State { State(max, [], 0, 0, 0) }

  function Find(es: seq<Entry>, k: Key): Option<Entry> {
    if es == [] then None else if es[0].key == k then Some(es[0]) else Find(es[1..], k)
  }

  function OtherKey(k: Key): Entry -> bool { (e: Entry) => e.key != k }

  function Without(es: seq<Entry>, k: Key): seq<Entry> { Filter(OtherKey(k), es) }

  function FindFor(es: seq<Entry>, q: Msg): Option<Entry> {
    if KeyOf(q).Some? then Find(es, KeyOf(q).value) else None
  }

  function Get(s: State, q: Msg, now: int): (r: (State, Option<Msg>)) {
    var found := FindFor(s.entries, q);
    if found.None? then (s.(misses := s.misses + 1), None)
    else if !Live(found.value, now) then
      (s.(entries := Without(s.entries, found.value.key), misses := s.misses + 1), None)
    else
      (s.(entries := [found.value] + Without(s.entries, found.value.key), hits := s.hits + 1),
       Some(Aged(found.value, q, now)))
  }

  function Peek(s: State, q: Msg, now: int): Option<(Msg, U32)> {
    var found := FindFor(s.entries, q);
    if found.None? || !Live(found.value, now) then None
    else Some((Aged(found.value, q, now), WholeSeconds(found.value.expires - now) % 0x1_0000_0000))
  }

  /** Whether storing `m` as the answer to `q` has any effect. */
  predicate Storable(max: nat, q: Msg, m: Msg, wireLength: nat) {
    KeyOf(q).Some? && max != 0 && !m.truncated && wireLength <= MAX_WIRE_LENGTH && Lifetime(m) != 0
  }

  function EntryFor(q: Msg, m: Msg, now: int): Entry
    requires KeyOf(q).Some?
  {
    Entry(KeyOf(q).value, NormalizeNegative(m), now, now + Lifetime(m) * SECOND)
  }

  function Room(es: seq<Entry>, max: nat): seq<Entry> {
    if |es| >= max && es != [] then es[..|es| - 1] else es
  }

  function Put(s: State, q: Msg, m: Msg, wireLength: nat, now: int): State {
    if !Storable(s.max, q, m, wireLength) then s
    else
      var e := EntryFor(q, m, now);
      s.(entries := [e] + Room(Without(s.entries, e.key), s.max))
  }

  function LiveAt(now: int): Entry -> bool { (e: Entry) => Live(e, now) }

  function Expire(s: State, now: int): State {
    s.(entries := Filter(LiveAt(now), s.entries))
  }

  /** An invalidation covers a name, one type or all of them, and optionally the
      names below. The root has no "names below": its suffix pattern would be "..". */
  predicate CoversQuestion(name: Name, qtype: nat, below: bool, owner: Name, ofType: nat) {
    && (qtype == 0 || ofType == qtype)
    && (owner == Lower(name) || (below && name != [] && AtOrBelow(owner, Lower(name))))
  }

  /** An invalidation goes by the question in the stored message, not by the key. */
  predicate Covers(name: Name, qtype: nat, below: bool, m: Msg) {
    m.questions != [] && CoversQuestion(name, qtype, below, Lower(m.questions[0].name), m.questions[0].qtype)
  }

  function Uncovered(name: Name, qtype: nat, below: bool): Entry -> bool {
    (e: Entry) => !Covers(name, qtype, below, e.message)
  }

  function Invalidate(s: State, name: Name, qtype: nat, below: bool): State {
    s.(entries := Filter(Uncovered(name, qtype, below), s.entries))
  }

  function Flush(s: State): State { s.(entries := []) }

  function SetUpstreamTtl(s: State, ttl: U32): State {
    if s.upstreamTtl == ttl then s else s.(upstreamTtl := ttl, entries := [])
  }

  // ---------- what every operation keeps ----------

  /** An entry lives exactly as long as its own message says. */
  predicate ValidEntry(e: Entry) {
    && Lifetime(e.message) > 0
    && e.expires == e.stored + Lifetime(e.message) * SECOND
    && (Negative(e.message) ==> NormalizeNegative(e.message) == e.message)
  }

  /** The message of an entry has the question of its key. */
  predicate Answers(e: Entry) {
    && |e.message.questions| == 1
    && Lower(e.message.questions[0].name) == e.key.name
    && e.message.questions[0].qtype == e.key.qtype
  }

  predicate Distinct(es: seq<Entry>) {
    forall i, j :: 0 <= i < j < |es| ==> es[i].key != es[j].key
  }

  predicate Valid(s: State) {
    && |s.entries| <= s.max
    && Distinct(s.entries)
    && (forall e :: e in s.entries ==> ValidEntry(e))
  }

  predicate Answering(s: State) { forall e :: e in s.entries ==> Answers(e) }

  /** Every stored message has a question to look at. */
  predicate Questioned(s: State) { forall e :: e in s.entries ==> e.message.questions != [] }

  lemma {:induction false} FindMember(es: seq<Entry>, k: Key)
    ensures Find(es, k).Some? ==> Find(es, k).value in es && Find(es, k).value.key == k
    ensures Find(es, k).None? ==> forall e :: e in es ==> e.key != k
  {
    if es != [] && es[0].key != k {
      FindMember(es[1..], k);
      assert es == [es[0]] + es[1..];
    }
  }

  lemma FindUnique(es: seq<Entry>, e: Entry)
    requires e in es && Distinct(es)
    ensures Find(es, e.key) == Some(e)
  {
    FindMember(es, e.key);
    var i :| 0 <= i < |es| && es[i] == e;
    var f := Find(es, e.key);
    assert f.Some?;
    var j :| 0 <= j < |es| && es[j] == f.value;
  }

  lemma {:induction false} FilterKeepsDistinct(p: Entry -> bool, es: seq<Entry>)
    requires Distinct(es)
    ensures Distinct(Filter(p, es))
  {
    if es != [] {
      FilterKeepsDistinct(p, es[1..]);
      FilterMembers(p, es[1..]);
      var rest := Filter(p, es[1..]);
      forall j | 0 <= j < |rest|
        ensures rest[j].key != es[0].key
      {
        assert rest[j] in rest;
        var k :| 0 <= k < |es[1..]| && es[1..][k] == rest[j];
        assert es[k + 1] == rest[j];
      }
    }
  }

  lemma FilterKeepsValid(p: Entry -> bool, s: State)
    requires Valid(s)
    ensures Valid(s.(entries := Filter(p, s.entries)))
  {
    FilterMembers(p, s.entries);
    FilterKeepsDistinct(p, s.entries);
  }

  /** Removing the entry of a key that is present makes room for one more. */
  lemma {:induction false} WithoutShorter(es: seq<Entry>, k: Key)
    ensures (exists e :: e in es && e.key == k) ==> |Without(es, k)| < |es|
  {
    if es != [] {
      WithoutShorter(es[1..], k);
      FilterMembers(OtherKey(k), es[1..]);
      if e :| e in es && e.key == k {
        if es[0].key != k {
          assert e in es[1..];
        }
      }
    }
  }

  lemma GetKeepsValid(s: State, q: Msg, now: int)
    requires Valid(s)
    ensures Valid(Get(s, q, now).0) && (Answering(s) ==> Answering(Get(s, q, now).0))
  {
    var found := FindFor(s.entries, q);
    if found.Some? {
      var k := KeyOf(q).value;
      FindMember(s.entries, k);
      FilterKeepsValid(OtherKey(k), s);
      FilterMembers(OtherKey(k), s.entries);
      WithoutShorter(s.entries, k);
      var rest := Without(s.entries, k);
      forall j | 0 <= j < |rest|
        ensures rest[j].key != k
      {
        assert rest[j] in rest;
      }
    }
  }

  lemma PutEntryValid(q: Msg, m: Msg, now: int)
    requires KeyOf(q).Some? && Lifetime(m) != 0
    ensures ValidEntry(EntryFor(q, m, now)) && (m.questions == q.questions ==> Answers(EntryFor(q, m, now)))
  {
    NormalizeNegativeStable(m);
  }

  lemma PutKeepsValid(s: State, q: Msg, m: Msg, wireLength: nat, now: int)
    requires Valid(s)
    ensures Valid(Put(s, q, m, wireLength, now))
    ensures Answering(s) && m.questions == q.questions ==> Answering(Put(s, q, m, wireLength, now))
  {
    if Storable(s.max, q, m, wireLength) {
      var e := EntryFor(q, m, now);
      PutEntryValid(q, m, now);
      FilterKeepsValid(OtherKey(e.key), s);
      FilterMembers(OtherKey(e.key), s.entries);
      var rest := Room(Without(s.entries, e.key), s.max);
      forall j | 0 <= j < |rest|
        ensures rest[j].key != e.key && ValidEntry(rest[j]) && rest[j] in s.entries
      {
        assert rest[j] in Without(s.entries, e.key);
      }
    }
  }

  // ---------- aging ----------

  /** While an entry is live its age in whole seconds stays below its lifetime. */
  lemma AgeBelowLifetime(e: Entry, now: int)
    requires ValidEntry(e) && e.stored <= now && Live(e, now)
    ensures AgeOf(e, now) == (now - e.stored) / SECOND < Lifetime(e.message)
  {
  }

  /** No countdown of a positive answer, nor of the answers and authority records of
      a denial, wraps: what is served is the stored TTL minus the age, at least 1. */
  lemma AgingNeverWraps(e: Entry, now: int, rr: RR)
    requires ValidEntry(e) && e.stored <= now && Live(e, now)
    requires rr.Type() != TYPE_OPT
    requires if Negative(e.message) then rr in e.message.answer || (rr in e.message.ns && rr.data.Authority?)
             else rr in e.message.answer + e.message.ns + e.message.extra
    ensures AgeRR(rr, AgeOf(e, now)).ttl == rr.ttl - (now - e.stored) / SECOND >= 1
  {
    var m := e.message;
    AgeBelowLifetime(e, now);
    if Negative(m) {
      var soa := FirstSoa(m.ns).value;
      FirstSoaMember(m.ns);
      LeastTtlIsLeast(m.answer, Min(Min(soa.ttl, soa.data.minTtl), MAX_NEGATIVE_TTL), false);
      if rr in m.ns && rr.data.Authority? {
        var i :| 0 <= i < |m.ns| && m.ns[i] == rr;
        assert ClampSoa(m, Lifetime(m)).ns[i] == ClampRR(rr, Lifetime(m));
      }
    } else {
      LeastTtlIsLeast(m.answer + m.ns + m.extra, MAX_POSITIVE_TTL, true);
    }
  }

  /** The lifetime of a denial ignores its other authority and additional records.
      Such a record counts down without wrapping for as long as the entry is live
      exactly when its own TTL reaches the last whole second of that lifetime. */
  lemma UncountedRecordWraps(e: Entry, rr: RR)
    requires ValidEntry(e) && Negative(e.message)
    requires rr in e.message.ns + e.message.extra && rr.Type() != TYPE_OPT
    ensures (forall now :: e.stored <= now && Live(e, now) ==>
               AgeRR(rr, AgeOf(e, now)).ttl == rr.ttl - (now - e.stored) / SECOND)
       <==> rr.ttl >= Lifetime(e.message) - 1
  {
    var last := e.stored + (Lifetime(e.message) - 1) * SECOND;
    assert Live(e, last);
    AgeBelowLifetime(e, last);
    assert AgeOf(e, last) == Lifetime(e.message) - 1;
    forall now | e.stored <= now && Live(e, now)
      ensures AgeOf(e, now) <= Lifetime(e.message) - 1
    {
      AgeBelowLifetime(e, now);
    }
  }

  /** A denial kept for 60 seconds whose name server record expires after 10: eleven
      seconds later that record is served with a TTL of over 136 years. */
  lemma WrappedTtlWitness(q: Msg, zone: Name)
    requires KeyOf(q).Some?
    ensures var soa := RR(zone, 60, Authority(zone, zone, 1, 60));
            var server := RR(zone, 10, Raw(TYPE_NS, Content([], 0)));
            var m := Reply(q, NAME_ERROR).(ns := [soa, server]);
            var e := EntryFor(q, m, 0);
            && ValidEntry(e) && Live(e, 11 * SECOND)
            && Aged(e, q, 11 * SECOND).ns == [soa.(ttl := 49), server.(ttl := 0xFFFF_FFFF)]
  {
    var soa := RR(zone, 60, Authority(zone, zone, 1, 60));
    var server := RR(zone, 10, Raw(TYPE_NS, Content([], 0)));
    var m := Reply(q, NAME_ERROR).(ns := [soa, server]);
    assert FirstSoa(m.ns) == Some(soa);
    assert Lifetime(m) == 60;
    PutEntryValid(q, m, 0);
    var e := EntryFor(q, m, 0);
    assert e.message.ns == m.ns;
    assert AgeOf(e, 11 * SECOND) == 11;
  }

  /** What a reply from upstream becomes before it is sent and stored. */
  function Normalized(m: Msg, policy: U32): Msg {
    NormalizeUpstream(NormalizeNegative(m), policy)
  }

  /** For a name error or an empty answer the authority record on the wire announces
      exactly the lifetime the cache uses. */
  lemma DenialAnnouncesLifetime(m: Msg, policy: U32, rr: RR)
    requires Negative(m) && (m.rcode == NAME_ERROR || m.answer == [])
    requires rr in Normalized(m, policy).ns && rr.data.Authority?
    ensures rr.ttl == Lifetime(Normalized(m, policy))
  {
    NormalizeNegativeStable(m);
    var i :| 0 <= i < |m.ns| && ClampRR(m.ns[i], Lifetime(m)) == rr;
  }

  /** An alias that leads nowhere is also a denial, but the configured lifetime may
      then be written over its authority record. What is announced is the lifetime
      used exactly when no override happens or the override is itself short enough. */
  lemma AliasDenialAnnouncesLifetime(m: Msg, policy: U32)
    requires Negative(m) && m.rcode == SUCCESS && m.answer != []
    ensures FirstSoa(Normalized(m, policy).ns).Some?
    ensures FirstSoa(Normalized(m, policy).ns).value.ttl == Lifetime(Normalized(m, policy))
       <==> (policy == 0 || !Overridable(NormalizeNegative(m))
             || policy <= Min(FirstSoa(m.ns).value.data.minTtl, MAX_NEGATIVE_TTL))
  {
    NormalizeNegativeStable(m);
    var n := NormalizeNegative(m);
    FirstSoaClamped(m.ns, n.ns, Lifetime(m));
    if policy != 0 && Overridable(n) {
      FirstSoaOverridden(n.ns, policy);
      OverriddenDenial(n, policy);
    }
  }

  /** An alias whose target is denied for 60 seconds, with an override of an hour: the
      authority record announces an hour, the cache keeps the denial for a minute. */
  lemma OverriddenDenialWitness(q: Msg, zone: Name)
    ensures var soa := RR(zone, 60, Authority(zone, zone, 1, 60));
            var m := Reply(q, SUCCESS).(answer := [RR(zone, 60, Alias(zone))], ns := [soa]);
            && Negative(m) && FirstSoa(Normalized(m, 3600).ns) == Some(soa.(ttl := 3600))
            && Lifetime(Normalized(m, 3600)) == 60
  {
    var soa := RR(zone, 60, Authority(zone, zone, 1, 60));
    var m := Reply(q, SUCCESS).(answer := [RR(zone, 60, Alias(zone))], ns := [soa]);
    assert FirstSoa(m.ns) == Some(soa);
    assert LeastTtl(m.answer[..0], 60, false) == 60 && Lifetime(m) == 60;
    var n := NormalizeNegative(m);
    assert n == m by {
      assert n.ns == m.ns;
    }
    FirstSoaOverridden(n.ns, 3600);
    OverriddenDenial(n, 3600);
  }

  lemma OverriddenDenial(n: Msg, policy: U32)
    requires Negative(n) && n.rcode == SUCCESS && Overridable(n) && policy != 0
    requires FirstSoa(OverrideAll(n.ns, policy)) == Some(FirstSoa(n.ns).value.(ttl := policy))
    ensures Lifetime(NormalizeUpstream(n, policy)) == Min(policy, Min(FirstSoa(n.ns).value.data.minTtl, MAX_NEGATIVE_TTL))
  {
    var out := NormalizeUpstream(n, policy);
    LeastTtlIsLeast(out.answer, Min(Min(policy, FirstSoa(n.ns).value.data.minTtl), MAX_NEGATIVE_TTL), false);
  }

  lemma {:induction false} FirstSoaOverridden(ns: seq<RR>, ttl: U32)
    ensures FirstSoa(OverrideAll(ns, ttl)).Some? == FirstSoa(ns).Some?
    ensures FirstSoa(ns).Some? ==> FirstSoa(OverrideAll(ns, ttl)).value == FirstSoa(ns).value.(ttl := ttl)
  {
    if ns != [] && !ns[0].data.Authority? {
      FirstSoaOverridden(ns[1..], ttl);
      assert OverrideAll(ns, ttl)[1..] == OverrideAll(ns[1..], ttl);
    }
  }

  // ---------- peeking ----------

  /** Peeking sees what a lookup would, and how many whole seconds are left. */
  lemma PeekMeans(s: State, q: Msg, now: int)
    ensures Peek(s, q, now).Some? == Get(s, q, now).1.Some?
    ensures Peek(s, q, now).Some? ==>
              var (m, left), e := Peek(s, q, now).value, FindFor(s.entries, q).value;
              && Get(s, q, now).1 == Some(m) && now < e.expires
              && (e.expires - now < 0x1_0000_0000 * SECOND ==> left * SECOND <= e.expires - now < (left + 1) * SECOND)
  {
  }
}
