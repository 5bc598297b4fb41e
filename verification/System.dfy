/** The running server: queries and configuration changes in any order. Every cached
    answer stays the answer of the route that handles its question now, and every answer
    given out is a clean alias chain. */
module System {
  import opened Dns
  import opened AnswerChain
  import Cache = CacheSpec
  import Forwarding
  import Rewrites
  import ZoneRecords
  import Zones
  import ZoneLookup
  import Policies
  import R = Resolver

  // ---------- local answers ----------

  /** Rewrites answer first, then the zones. */
  function LocalLookup(rewrites: seq<Rewrites.Rule>, views: Zones.Views, q: Msg): Option<R.LocalMatch> {
    var rewritten := Rewrites.Rewrite(rewrites, q);
    if rewritten.Some? then Some(R.LocalMatch(rewritten.value.0, R.RewriteLayer))
    else
      var zone := ZoneLookup.Lookup(views, q);
      if zone.Some? then Some(R.LocalMatch(zone.value, R.ZoneLayer)) else None
  }

  function LocalLayers(rewrites: seq<Rewrites.Rule>, views: Zones.Views): Msg -> Option<R.LocalMatch> {
    (q: Msg) => LocalLookup(rewrites, views, q)
  }

  /** A rewrite answers before any zone; a zone answers what no rewrite does. */
  lemma LocalMeans(rewrites: seq<Rewrites.Rule>, views: Zones.Views, q: Msg)
    ensures var found := LocalLookup(rewrites, views, q);
            && (Rewrites.Rewrite(rewrites, q).Some? ==> found == Some(R.LocalMatch(Rewrites.Rewrite(rewrites, q).value.0, R.RewriteLayer)))
            && (Rewrites.Rewrite(rewrites, q).None? && ZoneLookup.Lookup(views, q).Some? ==>
                  found == Some(R.LocalMatch(ZoneLookup.Lookup(views, q).value, R.ZoneLayer)))
            && (found.None? <==> Rewrites.Rewrite(rewrites, q).None? && ZoneLookup.Lookup(views, q).None?)
  {
  }

  /** Whatever the local layers answer is a chain from the question. */
  lemma LocalIsChain(rewrites: seq<Rewrites.Rule>, t: Zones.Views, zs: seq<ZoneRecords.Zone>, q: Msg)
    requires ZoneLookup.Served(t, zs) && LocalLookup(rewrites, t, q).Some?
    ensures |q.questions| == 1 && ChainAnswer(q.questions[0], LocalLookup(rewrites, t, q).value.msg.answer)
  {
    if Rewrites.Rewrite(rewrites, q).Some? {
      Rewrites.RewriteIsChain(rewrites, q);
    } else {
      ZoneLookup.LookupIsChain(t, zs, q);
    }
  }

  // ---------- the server ----------

  /** The outside: what the resolvers behind each route answer at each time. */
  datatype World = World(reply: (R.Route, Msg, int) -> Option<Msg>, wireLength: Msg -> nat, hosts: Forwarding.Hosts)

  datatype Server = Server(cache: Cache.State, rules: seq<Forwarding.Rule>, rewrites: seq<Rewrites.Rule>, views: Zones.Views)

  /** How a query's client is treated. */
  datatype Policy = Policy(cancelled: bool, blockZero: bool, filter: Option<Name -> bool>, allows: Name -> bool)

  datatype Event =
    | Query(policy: Policy, q: Msg, now: int)
    | DryRun(policy: Policy, q: Msg, now: int)
    | SaveRule(rule: Forwarding.Rule, newId: Option<int>)
    | DeleteRule(id: int, stored: bool)
    | SaveRewrites(rewrites: seq<Rewrites.Rule>, name: Name)
    | SaveZones(zones: seq<ZoneRecords.Zone>)
    | SetUpstreamTtl(ttl: U32)
    | Invalidate(name: Name, qtype: nat, below: bool)
    | Expire(now: int)
    | Flush

  function EnvOf(w: World, s: Server, p: Policy): R.Env {
    R.Env(p.cancelled, p.blockZero, p.filter, p.allows, Some(LocalLayers(s.rewrites, s.views)),
          Forwarding.TableOf(s.rules), w.reply, w.wireLength)
  }

  function InvalidateAll(c: Cache.State, domains: seq<Name>): Cache.State
    decreases |domains|
  {
    if domains == [] then c else InvalidateAll(Cache.Invalidate(c, domains[0], 0, true), domains[1..])
  }

  function Apply(s: Server, out: Forwarding.Outcome): Server {
    if out.Changed? then s.(rules := out.rules, cache := InvalidateAll(s.cache, out.domains)) else s
  }

  ghost function Next(w: World, s: Server, e: Event): Server {
    match e
    case Query(p, q, now) => s.(cache := R.Resolve(EnvOf(w, s, p), s.cache, q, now, 0, None).cache)
    case DryRun(p, q, now) => s.(cache := R.Resolve(EnvOf(w, s, p), s.cache, q, now, 0, Some([])).cache)
    case SaveRule(rule, newId) => Apply(s, Forwarding.SaveOutcome(w.hosts, s.rules, rule, newId))
    case DeleteRule(id, stored) => Apply(s, Forwarding.DeleteOutcome(s.rules, id, stored))
    case SaveRewrites(rewrites, name) => s.(rewrites := rewrites, cache := Cache.Invalidate(s.cache, name, 0, true))
    case SaveZones(zones) => if Zones.CompileSpec(zones).Some? then s.(views := Zones.CompileSpec(zones).value.byName, cache := Cache.Flush(s.cache)) else s
    case SetUpstreamTtl(ttl) => s.(cache := Cache.SetUpstreamTtl(s.cache, ttl))
    case Invalidate(name, qtype, below) => s.(cache := Cache.Invalidate(s.cache, name, qtype, below))
    case Expire(now) => s.(cache := Cache.Expire(s.cache, now))
    case Flush => s.(cache := Cache.Flush(s.cache))
  }

  /** The database hands out unused numbers. */
  predicate Possible(s: Server, e: Event) {
    e.SaveRule? && e.newId.Some? ==> Forwarding.FreshId(s.rules, e.newId.value)
  }

  // ---------- what a cached answer is ----------

  /** What the route that handles `q` under these rules answered at a time. */
  ghost function FetchVia(w: World, rules: seq<Forwarding.Rule>, q: Msg, at: int): Option<Msg> {
    var route := if |q.questions| == 1 then Closest(Forwarding.TableOf(rules), Lower(q.questions[0].name)) else None;
    var raw := w.reply(route, q, at);
    if raw.None? then None else R.Accept(q, raw.value)
  }

  /** The entry is the reply, at the time it was stored, of the route that handles its
      question now, under the lifetime policy in force now. */
  ghost predicate FromRoute(w: World, rules: seq<Forwarding.Rule>, ttl: U32, e: Cache.Entry, q: Msg) {
    && Cache.KeyOf(q) == Some(e.key)
    && FetchVia(w, rules, q, e.stored).Some?
    && e == Cache.EntryFor(q, Cache.Normalized(FetchVia(w, rules, q, e.stored).value, ttl), e.stored)
  }

  ghost predicate Coherent(w: World, rules: seq<Forwarding.Rule>, ttl: U32, es: seq<Cache.Entry>) {
    forall e :: e in es ==> exists q :: FromRoute(w, rules, ttl, e, q)
  }

  /** The snapshot in use was compiled from some zones. */
  ghost predicate ServesZones(t: Zones.Views) { exists zs :: ZoneLookup.Served(t, zs) }

  ghost predicate Invariant(w: World, s: Server) {
    && Cache.Valid(s.cache)
    && Forwarding.WellFormed(s.rules)
    && ServesZones(s.views)
    && Coherent(w, s.rules, s.cache.upstreamTtl, s.cache.entries)
  }

  // ---------- queries keep the cache coherent ----------

  ghost predicate Faithful(w: World, s: Server, c: Cache.State) {
    && Cache.Valid(c) && c.upstreamTtl == s.cache.upstreamTtl && c.max == s.cache.max
    && Coherent(w, s.rules, s.cache.upstreamTtl, c.entries)
  }

  lemma SubsetFaithful(w: World, s: Server, c: Cache.State, d: Cache.State)
    requires Faithful(w, s, c) && Cache.Valid(d) && d.upstreamTtl == c.upstreamTtl && d.max == c.max
    requires forall e :: e in d.entries ==> e in c.entries
    ensures Faithful(w, s, d)
  {
  }

  lemma GetFaithful(w: World, s: Server, c: Cache.State, q: Msg, now: int)
    requires Faithful(w, s, c)
    ensures Faithful(w, s, Cache.Get(c, q, now).0)
  {
    Cache.GetKeepsValid(c, q, now);
    var found := Cache.FindFor(c.entries, q);
    if found.Some? {
      Cache.FindMember(c.entries, Cache.KeyOf(q).value);
      FilterMembers(Cache.OtherKey(found.value.key), c.entries);
    }
    SubsetFaithful(w, s, c, Cache.Get(c, q, now).0);
  }

  lemma PutMembers(c: Cache.State, q: Msg, m: Msg, length: nat, now: int, e: Cache.Entry)
    requires e in Cache.Put(c, q, m, length, now).entries
    ensures e in c.entries || (Cache.KeyOf(q).Some? && e == Cache.EntryFor(q, m, now))
  {
    if Cache.Storable(c.max, q, m, length) {
      var k := Cache.KeyOf(q).value;
      FilterMembers(Cache.OtherKey(k), c.entries);
      var kept := Cache.Without(c.entries, k);
      assert forall x :: x in Cache.Room(kept, c.max) ==> x in kept;
    }
  }

  lemma PutFaithful(w: World, s: Server, c: Cache.State, q: Msg, m: Msg, length: nat, now: int)
    requires Faithful(w, s, c) && m.questions == q.questions
    requires FetchVia(w, s.rules, q, now).Some? && m == Cache.Normalized(FetchVia(w, s.rules, q, now).value, s.cache.upstreamTtl)
    ensures Faithful(w, s, Cache.Put(c, q, m, length, now))
  {
    Cache.PutKeepsValid(c, q, m, length, now);
    forall e | e in Cache.Put(c, q, m, length, now).entries
      ensures exists q' :: FromRoute(w, s.rules, s.cache.upstreamTtl, e, q')
    {
      PutMembers(c, q, m, length, now, e);
      if e !in c.entries {
        assert FromRoute(w, s.rules, s.cache.upstreamTtl, e, q);
      }
    }
  }

  lemma AskFaithful(w: World, s: Server, p: Policy, c: Cache.State, q: Msg, now: int)
    requires Faithful(w, s, c)
    ensures Faithful(w, s, R.Ask(EnvOf(w, s, p), c, q, now, None).cache)
  {
    var env := EnvOf(w, s, p);
    var fetched := R.Fetch(env, q, now);
    assert fetched == FetchVia(w, s.rules, q, now);
    if fetched.Some? && R.BlockedAnswerName(env, fetched.value.answer).None? {
      var m := Cache.Normalized(fetched.value, c.upstreamTtl);
      R.NormalizedKeepsAnswer(fetched.value, c.upstreamTtl);
      PutFaithful(w, s, c, q, m, env.wireLength(m), now);
    }
  }

  lemma RemoteFaithful(w: World, s: Server, p: Policy, q: Msg, now: int, depth: nat)
    requires Faithful(w, s, s.cache)
    ensures Faithful(w, s, R.Remote(EnvOf(w, s, p), s.cache, q, now, depth, None).cache)
  {
    GetFaithful(w, s, s.cache, q, now);
    AskFaithful(w, s, p, Cache.Get(s.cache, q, now).0, q, now);
  }

  lemma ResolveFaithful(w: World, s: Server, p: Policy, q: Msg, now: int)
    requires Faithful(w, s, s.cache)
    ensures Faithful(w, s, R.Resolve(EnvOf(w, s, p), s.cache, q, now, 0, None).cache)
  {
    var path := R.FindPath(EnvOf(w, s, p), q, 0);
    R.ResolveCache(EnvOf(w, s, p), s.cache, path, now, 0);
    RemoteFaithful(w, s, p, path[|path| - 1], now, |path| - 1);
  }

  // ---------- rule changes keep the cache coherent ----------

  lemma {:induction false} InvalidateAllMembers(c: Cache.State, domains: seq<Name>, e: Cache.Entry)
    requires e in InvalidateAll(c, domains).entries
    ensures e in c.entries && forall d :: d in domains ==> !Cache.Covers(d, 0, true, e.message)
    decreases |domains|
  {
    if domains != [] {
      InvalidateAllMembers(Cache.Invalidate(c, domains[0], 0, true), domains[1..], e);
      FilterMembers(Cache.Uncovered(domains[0], 0, true), c.entries);
      assert forall d :: d in domains <==> d == domains[0] || d in domains[1..];
    }
  }

  lemma {:induction false} InvalidateAllValid(c: Cache.State, domains: seq<Name>)
    requires Cache.Valid(c)
    ensures Cache.Valid(InvalidateAll(c, domains)) && InvalidateAll(c, domains).upstreamTtl == c.upstreamTtl
    decreases |domains|
  {
    if domains != [] {
      Cache.FilterKeepsValid(Cache.Uncovered(domains[0], 0, true), c);
      InvalidateAllValid(Cache.Invalidate(c, domains[0], 0, true), domains[1..]);
    }
  }

  /** An entry that survives the invalidation is handled by the same route as before. */
  lemma SurvivorKeepsRoute(w: World, rules: seq<Forwarding.Rule>, rules': seq<Forwarding.Rule>, ttl: U32, e: Cache.Entry)
    requires exists q :: FromRoute(w, rules, ttl, e, q)
    requires forall q :: Cache.KeyOf(q) == Some(e.key) ==>
               Closest(Forwarding.TableOf(rules'), Lower(q.questions[0].name)) == Closest(Forwarding.TableOf(rules), Lower(q.questions[0].name))
    ensures exists q :: FromRoute(w, rules', ttl, e, q)
  {
    var q :| FromRoute(w, rules, ttl, e, q);
    assert FetchVia(w, rules', q, e.stored) == FetchVia(w, rules, q, e.stored);
    assert FromRoute(w, rules', ttl, e, q);
  }

  lemma ApplyKeepsInvariant(w: World, s: Server, out: Forwarding.Outcome)
    requires Invariant(w, s)
    requires out.Changed? ==> Forwarding.WellFormed(out.rules) && forall d :: d in out.domains ==> d != [] && Lower(d) == d
    requires out.Changed? ==> forall name :: (forall d :: d in out.domains ==> !AtOrBelow(Lower(name), d)) ==>
               Closest(Forwarding.TableOf(out.rules), Lower(name)) == Closest(Forwarding.TableOf(s.rules), Lower(name))
    ensures Invariant(w, Apply(s, out))
  {
    if out.Changed? {
      InvalidateAllValid(s.cache, out.domains);
      InvariantAnswers(w, s);
      forall e | e in InvalidateAll(s.cache, out.domains).entries
        ensures exists q :: FromRoute(w, out.rules, s.cache.upstreamTtl, e, q)
      {
        InvalidateAllMembers(s.cache, out.domains, e);
        forall q | Cache.KeyOf(q) == Some(e.key)
          ensures Closest(Forwarding.TableOf(out.rules), Lower(q.questions[0].name)) == Closest(Forwarding.TableOf(s.rules), Lower(q.questions[0].name))
        {
          forall d | d in out.domains
            ensures !AtOrBelow(Lower(q.questions[0].name), d)
          {
            assert !Cache.Covers(d, 0, true, e.message) && Cache.Answers(e);
          }
        }
        SurvivorKeepsRoute(w, s.rules, out.rules, s.cache.upstreamTtl, e);
      }
    }
  }

  lemma SaveRuleKeepsInvariant(w: World, s: Server, rule: Forwarding.Rule, newId: Option<int>)
    requires Invariant(w, s) && (newId.Some? ==> Forwarding.FreshId(s.rules, newId.value))
    ensures Invariant(w, Apply(s, Forwarding.SaveOutcome(w.hosts, s.rules, rule, newId)))
  {
    var out := Forwarding.SaveOutcome(w.hosts, s.rules, rule, newId);
    if out.Changed? {
      Forwarding.SaveReportsNormalDomains(w.hosts, s.rules, rule, newId);
      forall name | forall d :: d in out.domains ==> !AtOrBelow(Lower(name), d)
        ensures Closest(Forwarding.TableOf(out.rules), Lower(name)) == Closest(Forwarding.TableOf(s.rules), Lower(name))
      {
        Forwarding.SaveAffectsOnlyReported(w.hosts, s.rules, rule, newId, name);
      }
    }
    ApplyKeepsInvariant(w, s, out);
  }

  lemma DeleteRuleKeepsInvariant(w: World, s: Server, id: int, stored: bool)
    requires Invariant(w, s)
    ensures Invariant(w, Apply(s, Forwarding.DeleteOutcome(s.rules, id, stored)))
  {
    var out := Forwarding.DeleteOutcome(s.rules, id, stored);
    if out.Changed? {
      Forwarding.DeleteKeepsWellFormed(s.rules, id, stored);
      forall name | forall d :: d in out.domains ==> !AtOrBelow(Lower(name), d)
        ensures Closest(Forwarding.TableOf(out.rules), Lower(name)) == Closest(Forwarding.TableOf(s.rules), Lower(name))
      {
        Forwarding.DeleteAffectsOnlyReported(s.rules, id, name);
      }
    }
    ApplyKeepsInvariant(w, s, out);
  }

  lemma SubsetKeepsInvariant(w: World, s: Server, c: Cache.State)
    requires Invariant(w, s) && Cache.Valid(c) && c.upstreamTtl == s.cache.upstreamTtl
    requires forall e :: e in c.entries ==> e in s.cache.entries
    ensures Invariant(w, s.(cache := c))
  {
  }

  lemma FilterKeepsInvariant(w: World, s: Server, p: Cache.Entry -> bool)
    requires Invariant(w, s)
    ensures Invariant(w, s.(cache := s.cache.(entries := Filter(p, s.cache.entries))))
  {
    Cache.FilterKeepsValid(p, s.cache);
    FilterMembers(p, s.cache.entries);
    SubsetKeepsInvariant(w, s, s.cache.(entries := Filter(p, s.cache.entries)));
  }

  lemma QueryKeepsInvariant(w: World, s: Server, p: Policy, q: Msg, now: int)
    requires Invariant(w, s)
    ensures Invariant(w, s.(cache := R.Resolve(EnvOf(w, s, p), s.cache, q, now, 0, None).cache))
  {
    ResolveFaithful(w, s, p, q, now);
  }

  /** Every event keeps the invariant. */
  lemma NextKeepsInvariant(w: World, s: Server, e: Event)
    requires Invariant(w, s) && Possible(s, e)
    ensures Invariant(w, Next(w, s, e))
  {
    match e {
      case Query(p, q, now) => QueryKeepsInvariant(w, s, p, q, now);
      case DryRun(p, q, now) => R.DryRunTellsTruth(EnvOf(w, s, p), s.cache, q, now, 0, 0, []);
      case SaveRule(rule, newId) => SaveRuleKeepsInvariant(w, s, rule, newId);
      case DeleteRule(id, stored) => DeleteRuleKeepsInvariant(w, s, id, stored);
      case SaveRewrites(rewrites, name) => FilterKeepsInvariant(w, s, Cache.Uncovered(name, 0, true));
      case Invalidate(name, qtype, below) => FilterKeepsInvariant(w, s, Cache.Uncovered(name, qtype, below));
      case Expire(now) => FilterKeepsInvariant(w, s, Cache.LiveAt(now));
      case SaveZones(zones) =>
        if Zones.CompileSpec(zones).Some? {
          ZoneLookup.CompiledIsServed(zones);
          assert ServesZones(Next(w, s, e).views);
        }
      case _ =>
    }
  }

  // ---------- whole runs ----------

  ghost function After(w: World, s: Server, events: seq<Event>): Server {
    if events == [] then s else Next(w, After(w, s, events[..|events| - 1]), events[|events| - 1])
  }

  ghost predicate PossibleRun(w: World, s: Server, events: seq<Event>) {
    events == []
    || (PossibleRun(w, s, events[..|events| - 1])
        && Possible(After(w, s, events[..|events| - 1]), events[|events| - 1]))
  }

  ghost predicate Start(s: Server) {
    s.cache == Cache.Empty(s.cache.max) && Forwarding.WellFormed(s.rules)
    && exists zones :: Zones.CompileSpec(zones).Some? && s.views == Zones.CompileSpec(zones).value.byName
  }

  lemma {:induction false} AlwaysInvariant(w: World, s: Server, events: seq<Event>)
    requires Start(s) && PossibleRun(w, s, events)
    ensures Invariant(w, After(w, s, events))
  {
    if events == [] {
      var zones :| Zones.CompileSpec(zones).Some? && s.views == Zones.CompileSpec(zones).value.byName;
      ZoneLookup.CompiledIsServed(zones);
    } else {
      AlwaysInvariant(w, s, events[..|events| - 1]);
      NextKeepsInvariant(w, After(w, s, events[..|events| - 1]), events[|events| - 1]);
    }
  }

  /** In every run, whatever the cache serves is what the route that handles the question
      now answered when the entry was stored, only aged. */
  lemma HitsComeFromCurrentRoute(w: World, s: Server, events: seq<Event>, q: Msg, now: int) returns (asked: Msg, at: int)
    requires Start(s) && PossibleRun(w, s, events)
    requires Cache.Get(After(w, s, events).cache, q, now).1.Some?
    ensures var here := After(w, s, events);
            && Cache.KeyOf(asked).Some? && Cache.SameRequest(asked, q)
            && FetchVia(w, here.rules, asked, at).Some?
            && var e := Cache.EntryFor(asked, Cache.Normalized(FetchVia(w, here.rules, asked, at).value, here.cache.upstreamTtl), at);
               Cache.Live(e, now) && Cache.Get(here.cache, q, now).1.value == Cache.Aged(e, q, now)
  {
    AlwaysInvariant(w, s, events);
    var here := After(w, s, events);
    Cache.FindMember(here.cache.entries, Cache.KeyOf(q).value);
    var e := Cache.FindFor(here.cache.entries, q).value;
    asked :| FromRoute(w, here.rules, here.cache.upstreamTtl, e, asked);
    Cache.SameKeyMeans(asked, q);
    at := e.stored;
  }

  /** Cached messages have the question of their key, as invalidation needs. */
  lemma InvariantAnswers(w: World, s: Server)
    requires Invariant(w, s)
    ensures Cache.Answering(s.cache)
  {
    forall e | e in s.cache.entries
      ensures Cache.Answers(e)
    {
      var q :| FromRoute(w, s.rules, s.cache.upstreamTtl, e, q);
      EntryAnswers(w, s.rules, s.cache.upstreamTtl, e, q);
    }
  }

  lemma EntryAnswers(w: World, rules: seq<Forwarding.Rule>, ttl: U32, e: Cache.Entry, q: Msg)
    requires FromRoute(w, rules, ttl, e, q) && Cache.Lifetime(e.message) > 0
    ensures Cache.Answers(e)
  {
    var m := FetchVia(w, rules, q, e.stored).value;
    R.NormalizedKeepsAnswer(m, ttl);
    assert e.message.questions == m.questions == q.questions;
  }

  /** No cached question is at or below the domain. */
  predicate NothingBelow(c: Cache.State, d: Name) {
    forall e :: e in c.entries && e.message.questions != [] ==> !AtOrBelow(Lower(e.message.questions[0].name), Lower(d))
  }

  /** Changes reach the cache: new zones and a new lifetime empty it, a rewrite or a rule
      clears the names at or below its domains. */
  lemma ChangesAreInvalidated(w: World, s: Server, e: Event)
    requires Forwarding.WellFormed(s.rules) && Possible(s, e)
    ensures e.SaveZones? && Zones.CompileSpec(e.zones).Some? ==> Next(w, s, e).cache.entries == [] && Next(w, s, e).views == Zones.CompileSpec(e.zones).value.byName
    ensures e.SetUpstreamTtl? && e.ttl != s.cache.upstreamTtl ==> Next(w, s, e).cache.entries == []
    ensures e.SaveRewrites? && e.name != [] ==> NothingBelow(Next(w, s, e).cache, e.name) && Next(w, s, e).rewrites == e.rewrites
    ensures e.SaveRule? ==>
              var out := Forwarding.SaveOutcome(w.hosts, s.rules, e.rule, e.newId);
              out.Changed? ==> Next(w, s, e).rules == out.rules && forall d :: d in out.domains ==> NothingBelow(Next(w, s, e).cache, d)
    ensures e.DeleteRule? ==>
              var out := Forwarding.DeleteOutcome(s.rules, e.id, e.stored);
              out.Changed? ==> Next(w, s, e).rules == out.rules && forall d :: d in out.domains ==> NothingBelow(Next(w, s, e).cache, d)
  {
    match e {
      case SaveRewrites(_, name) => FilterMembers(Cache.Uncovered(name, 0, true), s.cache.entries);
      case SaveRule(rule, newId) =>
        var out := Forwarding.SaveOutcome(w.hosts, s.rules, rule, newId);
        if out.Changed? {
          Forwarding.SaveReportsNormalDomains(w.hosts, s.rules, rule, newId);
          InvalidatedBelow(s.cache, out.domains);
        }
      case DeleteRule(id, stored) =>
        var out := Forwarding.DeleteOutcome(s.rules, id, stored);
        if out.Changed? {
          InvalidatedBelow(s.cache, out.domains);
        }
      case _ =>
    }
  }

  lemma InvalidatedBelow(c: Cache.State, domains: seq<Name>)
    requires forall d :: d in domains ==> d != []
    ensures forall d :: d in domains ==> NothingBelow(InvalidateAll(c, domains), d)
  {
    forall e | e in InvalidateAll(c, domains).entries
      ensures forall d :: d in domains ==> !Cache.Covers(d, 0, true, e.message)
    {
      InvalidateAllMembers(c, domains, e);
    }
  }

  // ---------- every answer is clean ----------

  lemma EntryIsChain(w: World, rules: seq<Forwarding.Rule>, ttl: U32, e: Cache.Entry)
    requires exists q :: FromRoute(w, rules, ttl, e, q)
    ensures Chain(e.key.name, e.message.answer)
  {
    var q :| FromRoute(w, rules, ttl, e, q);
    var m := FetchVia(w, rules, q, e.stored).value;
    var route := Closest(Forwarding.TableOf(rules), Lower(q.questions[0].name));
    R.AcceptedIsChain(q, w.reply(route, q, e.stored).value);
    R.NormalizedKeepsAnswer(m, ttl);
    SameOwnersSameChain(e.key.name, m.answer, Cache.Normalized(m, ttl).answer);
  }

  lemma LocalLayersAreChains(w: World, s: Server, p: Policy)
    requires ServesZones(s.views)
    ensures R.LocalChains(EnvOf(w, s, p))
  {
    var zs :| ZoneLookup.Served(s.views, zs);
    ServedLayersAreChains(EnvOf(w, s, p), s.rewrites, s.views, zs);
  }

  lemma ServedLayersAreChains(env: R.Env, rewrites: seq<Rewrites.Rule>, t: Zones.Views, zs: seq<ZoneRecords.Zone>)
    requires ZoneLookup.Served(t, zs) && env.local == Some(LocalLayers(rewrites, t))
    ensures R.LocalChains(env)
  {
    forall q | R.LocalFor(env, q).Some?
      ensures |q.questions| == 1 && ChainAnswer(q.questions[0], R.LocalFor(env, q).value.msg.answer)
    {
      LocalIsChain(rewrites, t, zs, q);
    }
  }

  /** In every run and for every client: an answer that is not a block is a connected
      chain from its question, and none of its owners and alias targets is blocked for
      that client, whatever was blocked for those whose queries filled the cache. */
  lemma AnswersAreClean(w: World, s: Server, events: seq<Event>, p: Policy, q: Msg, now: int)
    requires Start(s) && PossibleRun(w, s, events)
    ensures var here := After(w, s, events);
            var env := EnvOf(w, here, p);
            var outcome := R.Resolve(env, here.cache, q, now, 0, None).outcome;
            outcome.Done? && outcome.source != R.BlockedSource ==> R.Clean(env, q, outcome.message)
  {
    AlwaysInvariant(w, s, events);
    var here := After(w, s, events);
    forall e | e in here.cache.entries
      ensures Chain(e.key.name, e.message.answer)
    {
      EntryIsChain(w, here.rules, here.cache.upstreamTtl, e);
    }
    LocalLayersAreChains(w, here, p);
    R.ResultsAreClean(EnvOf(w, here, p), here.cache, q, now, 0);
  }

  // ---------- under the configured filtering ----------

  /** How a client is treated under the filtering in force. */
  ghost function ClientPolicy(f: Policies.Filters, client: Option<int>, known: bool, cancelled: bool, blockZero: bool): Policy
    requires Policies.InForce(f)
  {
    Policy(cancelled, blockZero, Some(n => Policies.Blocks(f, client, known, n)), n => Policies.AllowedSpec(f.config, client, known, n))
  }

  /** The step a dry run records for a filter decision, with its explanation: it says
      "blocked" or "allowed" exactly if the explanation does. */
  method FilterStep(f: Policies.Filters, client: Option<int>, known: bool, depth: nat, n: Name, blocked: bool, ghost env: R.Env)
    returns (step: R.Step, info: Policies.FilterInfo)
    requires Policies.InForce(f) && blocked == Policies.Blocks(f, client, known, n)
    requires env.allows == ClientPolicy(f, client, known, env.cancelled, env.blockZero).allows
    ensures R.FilterStep(env, Some([]), depth, n, blocked) == Some([step])
    ensures step.verdict == R.Blocked <==> info.matches != [] && info.allowed == []
    ensures step.verdict == R.Allowed <==> info.allowed != []
  {
    info := Policies.ExplainFilter(f, client, known, n);
    var verdict := if blocked then R.Blocked else if info.allowed != [] then R.Allowed else R.Passed;
    step := R.Step(R.FilterStage, verdict, depth, None, 0);
    assert env.allows(n) == Policies.AllowedSpec(f.config, client, known, n);
    assert [] + [step] == [step];
  }

  /** No owner and no alias target of an answer is blocked by the configured rules. */
  ghost predicate Respects(c: Policies.Config, client: Option<int>, known: bool, answer: seq<RR>) {
    forall rr :: rr in answer ==>
      && !Policies.BlockedByRules(c, client, known, rr.owner)
      && (rr.data.Alias? ==> !Policies.BlockedByRules(c, client, known, rr.data.target))
  }

  /** In every run, what a client is given respects the rules in force for it: its own
      policy, or the global rules and lists. */
  lemma AnswersRespectRules(w: World, s: Server, events: seq<Event>, f: Policies.Filters, client: Option<int>, known: bool,
                            cancelled: bool, blockZero: bool, q: Msg, now: int)
    requires Start(s) && PossibleRun(w, s, events) && Policies.InForce(f)
    ensures var here := After(w, s, events);
            var outcome := R.Resolve(EnvOf(w, here, ClientPolicy(f, client, known, cancelled, blockZero)), here.cache, q, now, 0, None).outcome;
            outcome.Done? && outcome.source != R.BlockedSource ==> Respects(f.config, client, known, outcome.message.answer)
  {
    var here, p := After(w, s, events), ClientPolicy(f, client, known, cancelled, blockZero);
    AnswersAreClean(w, s, events, p, q, now);
    CleanRespects(EnvOf(w, here, p), f, client, known);
  }

  lemma CleanRespects(env: R.Env, f: Policies.Filters, client: Option<int>, known: bool)
    requires Policies.InForce(f) && env.filter == Some(n => Policies.Blocks(f, client, known, n))
    ensures forall q, m :: R.Clean(env, q, m) ==> Respects(f.config, client, known, m.answer)
  {
    forall q, m | R.Clean(env, q, m)
      ensures Respects(f.config, client, known, m.answer)
    {
      forall rr | rr in m.answer
        ensures !Policies.BlockedByRules(f.config, client, known, rr.owner)
        ensures rr.data.Alias? ==> !Policies.BlockedByRules(f.config, client, known, rr.data.target)
      {
        assert !R.Offends(env, rr);
        Policies.BlocksMeansRules(f, client, known, rr.owner);
        if rr.data.Alias? {
          Policies.BlocksMeansRules(f, client, known, rr.data.target);
        }
      }
    }
  }
}
