/** Token buckets for all queries together and for each client, with a bounded client
    table. Times are seconds and tokens are fractions, as real numbers. */
module RateLimit {
  import opened Dns

  const MAX_CLIENTS := 10_000
  const IDLE_LIMIT := 600.0

  type Address = string

  /** What a stretch of time earns. */
  type Earning = real -> real

  datatype Limits = Limits(globalEarn: Earning, clientEarn: Earning, burst: real)

  /** The configured limits: so many queries a second, and the burst. */
  function Configured(globalQps: nat, clientQps: nat, burst: nat): Limits {
    Limits(PerSecond(globalQps), PerSecond(clientQps), burst as real)
  }

  function PerSecond(qps: nat): Earning { (seconds: real) => seconds * qps as real }

  /** Time earns something, and stretches of time earn what they earn one by one. */
  ghost predicate Steady(earn: Earning) {
    && (forall x :: x >= 0.0 ==> earn(x) >= 0.0)
    && (forall x, y :: x >= 0.0 && y >= 0.0 ==> Additive(earn, x, y))
  }

  ghost predicate Additive(earn: Earning, x: real, y: real) { earn(x + y) == earn(x) + earn(y) }

  ghost predicate Sensible(l: Limits) { Steady(l.globalEarn) && Steady(l.clientEarn) && l.burst >= 0.0 }

  lemma ConfiguredIsSensible(globalQps: nat, clientQps: nat, burst: nat)
    ensures Sensible(Configured(globalQps, clientQps, burst))
  {
    PerSecondIsSteady(globalQps);
    PerSecondIsSteady(clientQps);
  }

  lemma PerSecondIsSteady(qps: nat)
    ensures Steady(PerSecond(qps))
  {
    var q, earn := qps as real, PerSecond(qps);
    forall x | x >= 0.0 ensures earn(x) >= 0.0 {
      assert earn(x) == x * q;
    }
    forall x, y | x >= 0.0 && y >= 0.0 ensures Additive(earn, x, y) {
    }
  }

  lemma EarnOnTop(earn: Earning, a: real, b: real, c: real)
    requires Steady(earn) && a <= b <= c
    ensures earn(c - a) == earn(b - a) + earn(c - b) && earn(b - a) >= 0.0 && earn(c - b) >= 0.0
  {
    assert (b - a) + (c - b) == c - a;
    assert Additive(earn, b - a, c - b);
  }

  /** A bucket that was never used has no time of last use. */
  datatype Bucket = Bucket(tokens: real, updated: Option<real>)

  const UNUSED := Bucket(0.0, None)

  datatype State = State(global: Bucket, clients: map<Address, Bucket>)

  // ---------- one bucket ----------

  function MinReal(a: real, b: real): real { if a < b then a else b }

  /** The tokens a bucket holds when it is looked at. */
  function Refilled(b: Bucket, earn: Earning, burst: real, now: real): real {
    match b.updated
    case None => burst
    case Some(then_) => if now > then_ then MinReal(burst, b.tokens + earn(now - then_)) else b.tokens
  }

  function Take(b: Bucket, earn: Earning, burst: real, now: real): (Bucket, bool) {
    var tokens := Refilled(b, earn, burst, now);
    if tokens < 1.0 then (Bucket(tokens, Some(now)), false) else (Bucket(tokens - 1.0, Some(now)), true)
  }

  // ---------- the limiter ----------

  predicate Idle(b: Bucket, now: real) {
    b.updated.None? || now - b.updated.value > IDLE_LIMIT
  }

  /** Without the buckets that have been idle for more than ten minutes. */
  function Pruned(clients: map<Address, Bucket>, now: real): map<Address, Bucket> {
    map a | a in clients && !Idle(clients[a], now) :: clients[a]
  }

  function Bucketed(clients: map<Address, Bucket>, a: Address): Bucket {
    if a in clients then clients[a] else UNUSED
  }

  function TableFor(clients: map<Address, Bucket>, a: Address, now: real): map<Address, Bucket> {
    if a !in clients && |clients| >= MAX_CLIENTS then Pruned(clients, now) else clients
  }

  function Allow(l: Limits, s: State, a: Address, now: real): (State, bool) {
    var (global, passed) := Take(s.global, l.globalEarn, l.burst, now);
    if !passed then (State(global, s.clients), false)
    else
      var clients := TableFor(s.clients, a, now);
      if a !in clients && |clients| >= MAX_CLIENTS then (State(global, clients), false)
      else
        var (b, granted) := Take(Bucketed(clients, a), l.clientEarn, l.burst, now);
        if granted then (State(global, clients[a := b]), true) else (State(global, clients), false)
  }

  class Limiter {
    const limits: Limits
    var global: Bucket
    var clients: map<Address, Bucket>

    ghost function Contents(): State reads this { State(global, clients) }

    constructor (limits: Limits, now: real)
      ensures this.limits == limits && Contents() == Fresh(limits, now)
    {
      this.limits := limits;
      global := Bucket(limits.burst, Some(now));
      clients := map[];
    }

    /** Removes idle buckets, visiting the table in any order. */
    method Prune(now: real)
      modifies this`clients
      ensures clients == Pruned(old(clients), now)
    {
      var todo := clients.Keys;
      ghost var before := clients;
      while todo != {}
        invariant todo <= before.Keys
        invariant forall a :: a in clients <==> a in before && (a in todo || !Idle(before[a], now))
        invariant forall a :: a in clients ==> clients[a] == before[a]
        decreases todo
      {
        var a :| a in todo;
        if Idle(clients[a], now) {
          clients := clients - {a};
        }
        todo := todo - {a};
      }
    }

    method AllowQuery(client: Address, now: real) returns (ok: bool)
      modifies this`global, this`clients
      ensures (Contents(), ok) == Allow(limits, old(Contents()), client, now)
    {
      var passed;
      var taken := Take(global, limits.globalEarn, limits.burst, now);
      global, passed := taken.0, taken.1;
      if !passed {
        return false;
      }
      if client !in clients && |clients| >= MAX_CLIENTS {
        Prune(now);
        if |clients| >= MAX_CLIENTS {
          return false;
        }
      }
      var own := Take(Bucketed(clients, client), limits.clientEarn, limits.burst, now);
      if !own.1 {
        return false;
      }
      clients := clients[client := own.0];
      return true;
    }
  }

  function Fresh(l: Limits, now: real): State { State(Bucket(l.burst, Some(now)), map[]) }

  // ---------- runs ----------

  datatype Request = Request(client: Address, now: real)

  function Next(l: Limits, s: State, r: Request): State { Allow(l, s, r.client, r.now).0 }

  /** The states of a limiter started at `start` while it answers requests in time order. */
  ghost predicate Run(l: Limits, start: real, ss: seq<State>, rs: seq<Request>) {
    && |ss| == |rs| + 1 && ss[0] == Fresh(l, start)
    && (forall i :: 0 <= i < |rs| ==> start <= rs[i].now)
    && (forall i, j :: 0 <= i < j < |rs| ==> rs[i].now <= rs[j].now)
    && (forall i :: 0 <= i < |rs| ==> Follows(l, ss, rs, i))
  }

  ghost predicate Follows(l: Limits, ss: seq<State>, rs: seq<Request>, i: nat)
    requires |ss| == |rs| + 1 && i < |rs|
  {
    ss[i + 1] == Next(l, ss[i], rs[i])
  }

  /** Whether a request is granted, as a number: to anyone, or to one client. */
  function Granted(l: Limits, s: State, r: Request, only: Option<Address>): int {
    if Allow(l, s, r.client, r.now).1 && (only.None? || only.value == r.client) then 1 else 0
  }

  /** What each request of a run pays. */
  function Payments(l: Limits, ss: seq<State>, rs: seq<Request>, only: Option<Address>): seq<int>
    requires |ss| == |rs| + 1
  {
    seq(|rs|, i requires 0 <= i < |rs| => Granted(l, ss[i], rs[i], only))
  }

  function Sum(xs: seq<int>, lo: nat, hi: nat): int
    requires lo <= hi <= |xs|
    decreases hi - lo
  {
    if lo == hi then 0 else Sum(xs, lo, hi - 1) + xs[hi - 1]
  }

  /** How many of the requests from `lo` to `hi` are accepted, all or those of a client. */
  function Count(l: Limits, ss: seq<State>, rs: seq<Request>, only: Option<Address>, lo: nat, hi: nat): int
    requires |ss| == |rs| + 1 && lo <= hi <= |rs|
  {
    Sum(Payments(l, ss, rs, only), lo, hi)
  }

  /** The time of the request that led to a state. */
  function LastTime(start: real, rs: seq<Request>, i: nat): real
    requires i <= |rs|
  {
    if i == 0 then start else rs[i - 1].now
  }

  // ---------- buckets stay within bounds ----------

  predicate Full(b: Bucket, burst: real, upTo: real) {
    b.updated.Some? && b.updated.value <= upTo && 0.0 <= b.tokens <= burst
  }

  predicate Healthy(l: Limits, s: State, upTo: real) {
    && Full(s.global, l.burst, upTo)
    && (forall a :: a in s.clients ==> Full(s.clients[a], l.burst, upTo))
    && |s.clients| <= MAX_CLIENTS
  }

  lemma TakeStaysFull(b: Bucket, earn: Earning, burst: real, now: real)
    requires Steady(earn) && burst >= 0.0 && (b.updated.None? || Full(b, burst, now))
    ensures Full(Take(b, earn, burst, now).0, burst, now)
  {
    if b.updated.Some? {
      assert earn(now - b.updated.value) >= 0.0;
    }
  }

  lemma PrunedIsSmaller(clients: map<Address, Bucket>, now: real)
    ensures |Pruned(clients, now)| <= |clients|
  {
    var p := Pruned(clients, now);
    assert p.Keys <= clients.Keys;
    assert clients.Keys == p.Keys + (clients.Keys - p.Keys);
    assert |clients.Keys| == |p.Keys| + |clients.Keys - p.Keys|;
  }

  lemma AllowStaysHealthy(l: Limits, s: State, a: Address, now: real)
    requires Sensible(l) && Healthy(l, s, now)
    ensures Healthy(l, Allow(l, s, a, now).0, now)
  {
    TakeStaysFull(s.global, l.globalEarn, l.burst, now);
    PrunedIsSmaller(s.clients, now);
    var clients := TableFor(s.clients, a, now);
    TakeStaysFull(Bucketed(clients, a), l.clientEarn, l.burst, now);
    if a !in clients && |clients| < MAX_CLIENTS {
      var b := Take(Bucketed(clients, a), l.clientEarn, l.burst, now).0;
      assert |clients[a := b]| == |clients| + 1;
    } else if a in clients {
      var b := Take(Bucketed(clients, a), l.clientEarn, l.burst, now).0;
      assert clients[a := b].Keys == clients.Keys;
      assert |clients[a := b]| == |clients[a := b].Keys| == |clients.Keys| == |clients|;
    }
  }

  lemma HealthyLater(l: Limits, s: State, t: real, u: real)
    requires Healthy(l, s, t) && t <= u
    ensures Healthy(l, s, u)
  {
  }

  /** In every run the client table stays bounded and all buckets between empty and full. */
  lemma {:induction false} AlwaysHealthy(l: Limits, start: real, ss: seq<State>, rs: seq<Request>, i: nat)
    requires Sensible(l) && Run(l, start, ss, rs) && i <= |rs|
    ensures Healthy(l, ss[i], LastTime(start, rs, i)) && |ss[i].clients| <= MAX_CLIENTS
  {
    if i > 0 {
      AlwaysHealthy(l, start, ss, rs, i - 1);
      assert Follows(l, ss, rs, i - 1);
      HealthyLater(l, ss[i - 1], LastTime(start, rs, i - 1), rs[i - 1].now);
      AllowStaysHealthy(l, ss[i - 1], rs[i - 1].client, rs[i - 1].now);
    }
  }

  // ---------- the rate bound ----------

  /** What a window allows: the burst and what its length earns. */
  function Budget(burst: real, earn: Earning, from: real, to: real): real { burst + earn(to - from) }

  /** Time that passes adds at most its share of tokens. */
  lemma RefillBound(b: Bucket, earn: Earning, burst: real, then_: real, now: real)
    requires Steady(earn) && b.updated.Some? && b.updated.value <= then_ <= now
    ensures Refilled(b, earn, burst, now) <= Refilled(b, earn, burst, then_) + earn(now - then_)
  {
    var u := b.updated.value;
    EarnOnTop(earn, u, then_, now);
    EarnNothing(earn);
  }

  lemma EarnNothing(earn: Earning)
    requires Steady(earn)
    ensures earn(0.0) == 0.0
  {
    assert Additive(earn, 0.0, 0.0);
  }

  /** What was granted came out of the global bucket. */
  lemma GlobalSpends(l: Limits, s: State, r: Request)
    ensures Next(l, s, r).global.tokens + Granted(l, s, r, None) as real <= Refilled(s.global, l.globalEarn, l.burst, r.now)
    ensures Next(l, s, r).global.updated == Some(r.now)
  {
  }

  /** What a purse holds and what it pays never exceed the burst, nor what it held
      before and what the time since earned. */
  ghost predicate Paying(purse: seq<real>, paid: seq<int>, times: seq<real>, burst: real, earn: Earning) {
    && |purse| == |paid| + 1 == |times| + 1
    && (forall i, j :: 0 <= i < j < |times| ==> times[i] <= times[j])
    && (forall i :: 0 <= i < |paid| ==> PaysAt(purse, paid, times, burst, earn, i))
  }

  predicate PaysAt(purse: seq<real>, paid: seq<int>, times: seq<real>, burst: real, earn: Earning, i: nat)
    requires |purse| == |paid| + 1 == |times| + 1 && i < |paid|
  {
    var held := purse[i + 1] + paid[i] as real;
    held <= burst && (i > 0 ==> held <= purse[i] + earn(times[i] - times[i - 1]))
  }

  /** The argument behind both bounds: no window pays more than its budget. */
  lemma {:induction false} WindowBound(purse: seq<real>, paid: seq<int>, times: seq<real>, burst: real, earn: Earning, lo: nat, hi: nat)
    requires Steady(earn) && Paying(purse, paid, times, burst, earn) && lo < hi <= |paid|
    ensures purse[hi] + Sum(paid, lo, hi) as real <= Budget(burst, earn, times[lo], times[hi - 1])
    decreases hi - lo
  {
    assert PaysAt(purse, paid, times, burst, earn, hi - 1);
    if lo < hi - 1 {
      WindowBound(purse, paid, times, burst, earn, lo, hi - 1);
      EarnOnTop(earn, times[lo], times[hi - 2], times[hi - 1]);
    } else {
      EarnNothing(earn);
      assert times[hi - 1] - times[lo] == 0.0;
    }
  }

  function Times(rs: seq<Request>): seq<real> { seq(|rs|, i requires 0 <= i < |rs| => rs[i].now) }

  /** Where the purse is never overdrawn, what a window accepts is within its budget. */
  lemma WithinBudget(l: Limits, ss: seq<State>, rs: seq<Request>, only: Option<Address>, purse: seq<real>, earn: Earning, lo: nat, hi: nat)
    requires |ss| == |rs| + 1 && lo < hi <= |rs|
    requires Steady(earn) && Paying(purse, Payments(l, ss, rs, only), Times(rs), l.burst, earn) && purse[hi] >= 0.0
    ensures Count(l, ss, rs, only, lo, hi) as real <= Budget(l.burst, earn, rs[lo].now, rs[hi - 1].now)
  {
    var times := Times(rs);
    assert times[lo] == rs[lo].now && times[hi - 1] == rs[hi - 1].now;
    WindowBound(purse, Payments(l, ss, rs, only), times, l.burst, earn, lo, hi);
  }

  function GlobalPurses(ss: seq<State>): seq<real> { seq(|ss|, i requires 0 <= i < |ss| => ss[i].global.tokens) }

  /** A request leaves the global bucket no more than it had before and earned since. */
  lemma GlobalStep(l: Limits, s: State, r: Request, last: real)
    requires Sensible(l) && Healthy(l, s, last) && last <= r.now
    ensures var held := Next(l, s, r).global.tokens + Granted(l, s, r, None) as real;
            held <= l.burst && (s.global.updated == Some(last) ==> held <= s.global.tokens + l.globalEarn(r.now - last))
  {
    GlobalSpends(l, s, r);
  }

  lemma GlobalPays(l: Limits, start: real, ss: seq<State>, rs: seq<Request>, i: nat)
    requires Sensible(l) && Run(l, start, ss, rs) && i < |rs|
    ensures PaysAt(GlobalPurses(ss), Payments(l, ss, rs, None), Times(rs), l.burst, l.globalEarn, i)
  {
    assert Follows(l, ss, rs, i);
    AlwaysHealthy(l, start, ss, rs, i);
    GlobalStep(l, ss[i], rs[i], LastTime(start, rs, i));
    if i > 0 {
      assert Follows(l, ss, rs, i - 1);
      GlobalSpends(l, ss[i - 1], rs[i - 1]);
    }
  }

  lemma GlobalPaying(l: Limits, start: real, ss: seq<State>, rs: seq<Request>)
    requires Sensible(l) && Run(l, start, ss, rs)
    ensures Paying(GlobalPurses(ss), Payments(l, ss, rs, None), Times(rs), l.burst, l.globalEarn)
  {
    forall i | 0 <= i < |rs| ensures PaysAt(GlobalPurses(ss), Payments(l, ss, rs, None), Times(rs), l.burst, l.globalEarn, i) {
      GlobalPays(l, start, ss, rs, i);
    }
  }

  lemma GlobalBudget(l: Limits, start: real, ss: seq<State>, rs: seq<Request>, lo: nat, hi: nat)
    requires Sensible(l) && Run(l, start, ss, rs) && lo < hi <= |rs|
    ensures Count(l, ss, rs, None, lo, hi) as real <= Budget(l.burst, l.globalEarn, rs[lo].now, rs[hi - 1].now)
  {
    GlobalPaying(l, start, ss, rs);
    AlwaysHealthy(l, start, ss, rs, hi);
    WithinBudget(l, ss, rs, None, GlobalPurses(ss), l.globalEarn, lo, hi);
  }

  /** In any window of a run at most burst + rate * length queries are accepted. */
  lemma GlobalRateBound(globalQps: nat, clientQps: nat, burst: nat, start: real, ss: seq<State>, rs: seq<Request>, lo: nat, hi: nat)
    requires Run(Configured(globalQps, clientQps, burst), start, ss, rs) && lo < hi <= |rs|
    ensures Count(Configured(globalQps, clientQps, burst), ss, rs, None, lo, hi) as real
         <= Budget(burst as real, PerSecond(globalQps), rs[lo].now, rs[hi - 1].now)
  {
    ConfiguredIsSensible(globalQps, clientQps, burst);
    GlobalBudget(Configured(globalQps, clientQps, burst), start, ss, rs, lo, hi);
  }

  // ---------- pruning ----------

  /** Ten idle minutes fill any bucket exactly when the rate makes up the burst by then;
      only in that case is a forgotten bucket indistinguishable from a kept one. */
  lemma PruningForgetsNothing(qps: nat, burst: nat)
    ensures (forall b: Bucket, now: real :: Full(b, burst as real, now) && Idle(b, now) ==>
               Refilled(b, PerSecond(qps), burst as real, now) == burst as real)
       <==> 600 * qps >= burst
  {
    var earn, full := PerSecond(qps), burst as real;
    if 600 * qps >= burst {
      ConfiguredIsSensible(qps, qps, burst);
      forall b: Bucket, now: real | Full(b, full, now) && Idle(b, now)
        ensures Refilled(b, earn, full, now) == full
      {
        IdleIsFull(earn, full, b, now);
      }
    } else {
      var gap := 1.0 / (qps as real + 1.0);
      assert gap * (qps as real + 1.0) == 1.0 && gap > 0.0;
      assert (IDLE_LIMIT + gap) * qps as real == IDLE_LIMIT * qps as real + gap * qps as real;
      var b, now := Bucket(0.0, Some(0.0)), IDLE_LIMIT + gap;
      assert Full(b, full, now) && Idle(b, now);
      assert Refilled(b, earn, full, now) != full;
    }
  }

  lemma IdleIsFull(earn: Earning, burst: real, b: Bucket, now: real)
    requires Steady(earn) && earn(IDLE_LIMIT) >= burst && Full(b, burst, now) && Idle(b, now)
    ensures Refilled(b, earn, burst, now) == burst
  {
    var idle := now - b.updated.value;
    assert IDLE_LIMIT + (idle - IDLE_LIMIT) == idle;
    assert Additive(earn, IDLE_LIMIT, idle - IDLE_LIMIT);
  }

  /** The tokens a client could spend now, with or without a bucket in the table. */
  function Purse(l: Limits, s: State, a: Address, now: real): real {
    Refilled(Bucketed(s.clients, a), l.clientEarn, l.burst, now)
  }

  /** What a client is granted came out of its purse, pruned or not. */
  lemma AllowSpends(l: Limits, s: State, r: Request, a: Address)
    requires Sensible(l) && l.clientEarn(IDLE_LIMIT) >= l.burst && Healthy(l, s, r.now)
    ensures Purse(l, Next(l, s, r), a, r.now) + Granted(l, s, r, Some(a)) as real <= Purse(l, s, a, r.now)
  {
    var clients := TableFor(s.clients, r.client, r.now);
    if a in s.clients && a !in clients {
      IdleIsFull(l.clientEarn, l.burst, s.clients[a], r.now);
    }
  }

  lemma PurseGrows(l: Limits, s: State, a: Address, then_: real, now: real)
    requires Sensible(l) && Healthy(l, s, then_) && then_ <= now
    ensures Purse(l, s, a, now) <= Purse(l, s, a, then_) + l.clientEarn(now - then_)
    ensures Purse(l, s, a, now) <= l.burst
  {
    assert l.clientEarn(now - then_) >= 0.0;
    if a in s.clients {
      RefillBound(s.clients[a], l.clientEarn, l.burst, then_, now);
    }
  }

  function ClientPurses(l: Limits, start: real, ss: seq<State>, rs: seq<Request>, a: Address): seq<real>
    requires |ss| == |rs| + 1
  {
    seq(|ss|, i requires 0 <= i < |ss| => Purse(l, ss[i], a, LastTime(start, rs, i)))
  }

  /** A request leaves a client no more than it had before and earned since. */
  lemma ClientStep(l: Limits, s: State, r: Request, a: Address, last: real)
    requires Sensible(l) && l.clientEarn(IDLE_LIMIT) >= l.burst && Healthy(l, s, last) && last <= r.now
    ensures var held := Purse(l, Next(l, s, r), a, r.now) + Granted(l, s, r, Some(a)) as real;
            held <= l.burst && held <= Purse(l, s, a, last) + l.clientEarn(r.now - last)
  {
    HealthyLater(l, s, last, r.now);
    AllowSpends(l, s, r, a);
    PurseGrows(l, s, a, last, r.now);
  }

  lemma ClientPays(l: Limits, start: real, ss: seq<State>, rs: seq<Request>, a: Address, i: nat)
    requires Sensible(l) && l.clientEarn(IDLE_LIMIT) >= l.burst && Run(l, start, ss, rs) && i < |rs|
    ensures PaysAt(ClientPurses(l, start, ss, rs, a), Payments(l, ss, rs, Some(a)), Times(rs), l.burst, l.clientEarn, i)
  {
    assert Follows(l, ss, rs, i);
    AlwaysHealthy(l, start, ss, rs, i);
    var held := ClientPurses(l, start, ss, rs, a);
    assert held[i] == Purse(l, ss[i], a, LastTime(start, rs, i)) && held[i + 1] == Purse(l, ss[i + 1], a, rs[i].now);
    ClientStep(l, ss[i], rs[i], a, LastTime(start, rs, i));
  }

  lemma ClientPaying(l: Limits, start: real, ss: seq<State>, rs: seq<Request>, a: Address)
    requires Sensible(l) && l.clientEarn(IDLE_LIMIT) >= l.burst && Run(l, start, ss, rs)
    ensures Paying(ClientPurses(l, start, ss, rs, a), Payments(l, ss, rs, Some(a)), Times(rs), l.burst, l.clientEarn)
  {
    forall i | 0 <= i < |rs|
      ensures PaysAt(ClientPurses(l, start, ss, rs, a), Payments(l, ss, rs, Some(a)), Times(rs), l.burst, l.clientEarn, i)
    {
      ClientPays(l, start, ss, rs, a, i);
    }
  }

  lemma ClientBudget(l: Limits, start: real, ss: seq<State>, rs: seq<Request>, a: Address, lo: nat, hi: nat)
    requires Sensible(l) && l.clientEarn(IDLE_LIMIT) >= l.burst && Run(l, start, ss, rs) && lo < hi <= |rs|
    ensures Count(l, ss, rs, Some(a), lo, hi) as real <= Budget(l.burst, l.clientEarn, rs[lo].now, rs[hi - 1].now)
  {
    ClientPaying(l, start, ss, rs, a);
    AlwaysHealthy(l, start, ss, rs, hi);
    WithinBudget(l, ss, rs, Some(a), ClientPurses(l, start, ss, rs, a), l.clientEarn, lo, hi);
  }

  /** When ten minutes make up the burst, no client is granted more than burst plus its
      rate times the length of any window, however often its bucket was pruned. */
  lemma ClientRateBound(globalQps: nat, clientQps: nat, burst: nat, start: real, ss: seq<State>, rs: seq<Request>, a: Address, lo: nat, hi: nat)
    requires 600 * clientQps >= burst && Run(Configured(globalQps, clientQps, burst), start, ss, rs) && lo < hi <= |rs|
    ensures Count(Configured(globalQps, clientQps, burst), ss, rs, Some(a), lo, hi) as real
         <= Budget(burst as real, PerSecond(clientQps), rs[lo].now, rs[hi - 1].now)
  {
    ConfiguredIsSensible(globalQps, clientQps, burst);
    ClientBudget(Configured(globalQps, clientQps, burst), start, ss, rs, a, lo, hi);
  }


  // ---------- a table that is never pruned ----------

  /** The limiter with room for every client. */
  function AllowUnpruned(l: Limits, s: State, r: Request): (State, bool) {
    var (global, passed) := Take(s.global, l.globalEarn, l.burst, r.now);
    if !passed then (State(global, s.clients), false)
    else
      var (b, granted) := Take(Bucketed(s.clients, r.client), l.clientEarn, l.burst, r.now);
      if granted then (State(global, s.clients[r.client := b]), true) else (State(global, s.clients), false)
  }

  /** A new client is turned away because the table is full, though its bucket is not asked. */
  predicate Crowded(l: Limits, s: State, r: Request) {
    && Take(s.global, l.globalEarn, l.burst, r.now).1
    && var clients := TableFor(s.clients, r.client, r.now);
       r.client !in clients && |clients| >= MAX_CLIENTS
  }

  /** A bucket that has filled up by a time. */
  predicate FilledUp(b: Bucket, earn: Earning, burst: real, since: real) {
    b.updated.Some? && b.updated.value <= since && b.tokens + earn(since - b.updated.value) >= burst
  }

  /** What the pruned table lacks has filled up, and what it has is the same. */
  ghost predicate Simulates(l: Limits, s: State, u: State, since: real) {
    && s.global == u.global
    && (forall a :: a in s.clients ==> a in u.clients && u.clients[a] == s.clients[a])
    && (forall a :: a in u.clients && a !in s.clients ==> FilledUp(u.clients[a], l.clientEarn, l.burst, since))
  }

  lemma FilledStays(b: Bucket, earn: Earning, burst: real, since: real, now: real)
    requires Steady(earn) && FilledUp(b, earn, burst, since) && since <= now
    ensures FilledUp(b, earn, burst, now)
  {
    EarnOnTop(earn, b.updated.value, since, now);
  }

  lemma FilledIsFull(b: Bucket, earn: Earning, burst: real, now: real)
    requires Steady(earn) && FilledUp(b, earn, burst, now) && b.tokens <= burst
    ensures Refilled(b, earn, burst, now) == burst
  {
    EarnNothing(earn);
    assert b.updated.value == now ==> now - b.updated.value == 0.0;
  }

  /** An idle bucket has filled up when ten minutes make up the burst. */
  lemma IdleHasFilled(b: Bucket, earn: Earning, burst: real, now: real)
    requires Steady(earn) && earn(IDLE_LIMIT) >= burst && Full(b, burst, now) && Idle(b, now)
    ensures FilledUp(b, earn, burst, now)
  {
    var idle := now - b.updated.value;
    assert IDLE_LIMIT + (idle - IDLE_LIMIT) == idle;
    assert Additive(earn, IDLE_LIMIT, idle - IDLE_LIMIT);
  }

  /** Taking depends only on what the bucket holds by then. */
  lemma TakeByPurse(a: Bucket, b: Bucket, earn: Earning, burst: real, now: real)
    requires Refilled(a, earn, burst, now) == Refilled(b, earn, burst, now)
    ensures Take(a, earn, burst, now) == Take(b, earn, burst, now)
  {
  }

  lemma SimulatesLater(l: Limits, s: State, u: State, since: real, now: real)
    requires Sensible(l) && Simulates(l, s, u, since) && since <= now
    ensures Simulates(l, s, u, now)
  {
    forall a | a in u.clients && a !in s.clients ensures FilledUp(u.clients[a], l.clientEarn, l.burst, now) {
      FilledStays(u.clients[a], l.clientEarn, l.burst, since, now);
    }
  }

  lemma PruningSimulates(l: Limits, s: State, u: State, r: Request)
    requires Sensible(l) && l.clientEarn(IDLE_LIMIT) >= l.burst && Simulates(l, s, u, r.now) && Healthy(l, s, r.now)
    ensures Simulates(l, s.(clients := TableFor(s.clients, r.client, r.now)), u, r.now)
  {
    var clients := TableFor(s.clients, r.client, r.now);
    forall a | a in u.clients && a !in clients ensures FilledUp(u.clients[a], l.clientEarn, l.burst, r.now) {
      if a in s.clients {
        IdleHasFilled(s.clients[a], l.clientEarn, l.burst, r.now);
      }
    }
  }

  lemma SamePurse(l: Limits, s: State, u: State, a: Address, now: real)
    requires Sensible(l) && Simulates(l, s, u, now) && (a in u.clients ==> u.clients[a].tokens <= l.burst)
    ensures Refilled(Bucketed(s.clients, a), l.clientEarn, l.burst, now) == Refilled(Bucketed(u.clients, a), l.clientEarn, l.burst, now)
  {
    if a in u.clients && a !in s.clients {
      FilledIsFull(u.clients[a], l.clientEarn, l.burst, now);
    }
  }

  ghost predicate WithinBurst(l: Limits, u: State) { forall a :: a in u.clients ==> u.clients[a].tokens <= l.burst }

  /** One request: the same decision, and the tables still correspond. */
  lemma StepSimulates(l: Limits, s: State, u: State, r: Request)
    requires Sensible(l) && l.clientEarn(IDLE_LIMIT) >= l.burst && Healthy(l, s, r.now)
    requires Simulates(l, s, u, r.now) && WithinBurst(l, u) && !Crowded(l, s, r)
    ensures var (s', ok), (u', ok') := Allow(l, s, r.client, r.now), AllowUnpruned(l, u, r);
            ok == ok' && Simulates(l, s', u', r.now) && WithinBurst(l, u')
  {
    var t := s.(clients := TableFor(s.clients, r.client, r.now));
    PruningSimulates(l, s, u, r);
    SamePurse(l, t, u, r.client, r.now);
    TakeByPurse(Bucketed(t.clients, r.client), Bucketed(u.clients, r.client), l.clientEarn, l.burst, r.now);
    assert Refilled(Bucketed(t.clients, r.client), l.clientEarn, l.burst, r.now) <= l.burst by {
      PurseAtMostBurst(l, t, r.client, r.now);
    }
  }

  lemma PurseAtMostBurst(l: Limits, s: State, a: Address, now: real)
    requires forall x :: x in s.clients ==> s.clients[x].tokens <= l.burst
    ensures Refilled(Bucketed(s.clients, a), l.clientEarn, l.burst, now) <= l.burst
  {
  }

  /** The states of the limiter that has room for every client. */
  ghost predicate UnprunedRun(l: Limits, start: real, us: seq<State>, rs: seq<Request>) {
    && |us| == |rs| + 1 && us[0] == Fresh(l, start)
    && forall i :: 0 <= i < |rs| ==> us[i + 1] == AllowUnpruned(l, us[i], rs[i]).0
  }

  lemma {:induction false} RunSimulates(l: Limits, start: real, ss: seq<State>, us: seq<State>, rs: seq<Request>, i: nat)
    requires Sensible(l) && l.clientEarn(IDLE_LIMIT) >= l.burst && Run(l, start, ss, rs) && UnprunedRun(l, start, us, rs) && i <= |rs|
    requires forall j :: 0 <= j < i ==> !Crowded(l, ss[j], rs[j])
    ensures Simulates(l, ss[i], us[i], LastTime(start, rs, i)) && WithinBurst(l, us[i])
  {
    if i > 0 {
      RunSimulates(l, start, ss, us, rs, i - 1);
      AlwaysHealthy(l, start, ss, rs, i - 1);
      assert Follows(l, ss, rs, i - 1);
      SimulatesLater(l, ss[i - 1], us[i - 1], LastTime(start, rs, i - 1), rs[i - 1].now);
      HealthyLater(l, ss[i - 1], LastTime(start, rs, i - 1), rs[i - 1].now);
      StepSimulates(l, ss[i - 1], us[i - 1], rs[i - 1]);
    }
  }

  /** When ten minutes make up the burst, every run decides as if the table were never
      pruned, as long as no new client is turned away for a full table. */
  lemma PruningIsInvisible(globalQps: nat, clientQps: nat, burst: nat, start: real, ss: seq<State>, us: seq<State>, rs: seq<Request>, i: nat)
    requires 600 * clientQps >= burst && i < |rs|
    requires Run(Configured(globalQps, clientQps, burst), start, ss, rs)
    requires UnprunedRun(Configured(globalQps, clientQps, burst), start, us, rs)
    requires forall j :: 0 <= j <= i ==> !Crowded(Configured(globalQps, clientQps, burst), ss[j], rs[j])
    ensures var l := Configured(globalQps, clientQps, burst);
            Allow(l, ss[i], rs[i].client, rs[i].now).1 == AllowUnpruned(l, us[i], rs[i]).1
  {
    var l := Configured(globalQps, clientQps, burst);
    ConfiguredIsSensible(globalQps, clientQps, burst);
    assert PerSecond(clientQps)(IDLE_LIMIT) == 600.0 * clientQps as real;
    RunSimulates(l, start, ss, us, rs, i);
    AlwaysHealthy(l, start, ss, rs, i);
    SimulatesLater(l, ss[i], us[i], LastTime(start, rs, i), rs[i].now);
    HealthyLater(l, ss[i], LastTime(start, rs, i), rs[i].now);
    StepSimulates(l, ss[i], us[i], rs[i]);
  }

  // ---------- exactly who is let through ----------

  /** The level of a purse before each payment: full at first, and then what the payment
      before left and the time since earned, up to the burst. */
  ghost predicate LevelsAbove(level: seq<real>, paid: seq<int>, times: seq<real>, burst: real, earn: Earning) {
    && |level| == |times| == |paid| && (level != [] ==> level[0] >= burst)
    && forall i :: 0 < i < |level| ==> level[i] >= burst || level[i] >= Later(level, paid, times, earn, i)
  }

  ghost predicate LevelsBelow(level: seq<real>, paid: seq<int>, times: seq<real>, burst: real, earn: Earning) {
    && |level| == |times| == |paid| && (forall i :: 0 <= i < |level| ==> level[i] <= burst)
    && forall i :: 0 < i < |level| ==> level[i] <= Later(level, paid, times, earn, i)
  }

  function Later(level: seq<real>, paid: seq<int>, times: seq<real>, earn: Earning, i: nat): real
    requires |level| == |times| == |paid| && 0 < i < |level|
  {
    level[i - 1] - paid[i - 1] as real + earn(times[i] - times[i - 1])
  }

  ghost predicate InTime(times: seq<real>) { forall i, j :: 0 <= i < j < |times| ==> times[i] <= times[j] }

  /** What is left, at the time of `i`, of the budget of the window that starts with `lo`. */
  function Left(paid: seq<int>, times: seq<real>, burst: real, earn: Earning, lo: nat, i: nat): real
    requires lo <= i < |times| && |times| == |paid|
  {
    burst + earn(times[i] - times[lo]) - Sum(paid, lo, i) as real
  }

  /** A window one payment longer. */
  lemma LeftLater(paid: seq<int>, times: seq<real>, burst: real, earn: Earning, lo: nat, i: nat)
    requires Steady(earn) && InTime(times) && lo < i < |times| && |times| == |paid|
    ensures Left(paid, times, burst, earn, lo, i) == Left(paid, times, burst, earn, lo, i - 1) - paid[i - 1] as real + earn(times[i] - times[i - 1])
  {
    EarnOnTop(earn, times[lo], times[i - 1], times[i]);
  }

  /** The level is no less than what some window has left. */
  lemma {:induction false} SomeWindow(level: seq<real>, paid: seq<int>, times: seq<real>, burst: real, earn: Earning, i: nat) returns (lo: nat)
    requires Steady(earn) && InTime(times) && LevelsAbove(level, paid, times, burst, earn) && i < |level|
    ensures lo <= i && level[i] >= Left(paid, times, burst, earn, lo, i)
  {
    if level[i] < burst {
      lo := SomeWindow(level, paid, times, burst, earn, i - 1);
      LeftLater(paid, times, burst, earn, lo, i);
      assert level[i] >= Later(level, paid, times, earn, i);
    } else {
      lo := i;
      EarnNothing(earn);
      assert times[i] - times[lo] == 0.0;
    }
  }

  /** The level is no more than what every window has left. */
  lemma {:induction false} EveryWindow(level: seq<real>, paid: seq<int>, times: seq<real>, burst: real, earn: Earning, lo: nat, i: nat)
    requires Steady(earn) && InTime(times) && LevelsBelow(level, paid, times, burst, earn) && lo <= i < |level|
    ensures level[i] <= Left(paid, times, burst, earn, lo, i)
    decreases i
  {
    if lo < i {
      EveryWindow(level, paid, times, burst, earn, lo, i - 1);
      LeftLater(paid, times, burst, earn, lo, i);
      assert level[i] <= Later(level, paid, times, earn, i);
    } else {
      EarnNothing(earn);
      assert times[i] - times[lo] == 0.0;
    }
  }

  /** One more payment at `i` fits into every window that ends there. */
  ghost predicate Fits(paid: seq<int>, times: seq<real>, burst: real, earn: Earning, i: nat)
    requires i < |times| && i <= |paid|
  {
    forall lo: nat :: lo <= i ==> FitsSince(paid, times, burst, earn, lo, i)
  }

  ghost predicate FitsSince(paid: seq<int>, times: seq<real>, burst: real, earn: Earning, lo: nat, i: nat)
    requires lo <= i < |times| && i <= |paid|
  {
    Sum(paid, lo, i) as real + 1.0 <= burst + earn(times[i] - times[lo])
  }

  lemma LevelFits(level: seq<real>, paid: seq<int>, times: seq<real>, burst: real, earn: Earning, i: nat)
    requires Steady(earn) && InTime(times) && |level| == |times| == |paid| && i < |level|
    ensures LevelsAbove(level, paid, times, burst, earn) && Fits(paid, times, burst, earn, i) ==> level[i] >= 1.0
    ensures LevelsBelow(level, paid, times, burst, earn) && level[i] >= 1.0 ==> Fits(paid, times, burst, earn, i)
  {
    if LevelsAbove(level, paid, times, burst, earn) && Fits(paid, times, burst, earn, i) {
      var lo := SomeWindow(level, paid, times, burst, earn, i);
      assert FitsSince(paid, times, burst, earn, lo, i);
    }
    if LevelsBelow(level, paid, times, burst, earn) && level[i] >= 1.0 {
      forall lo: nat | lo <= i ensures FitsSince(paid, times, burst, earn, lo, i) {
        EveryWindow(level, paid, times, burst, earn, lo, i);
      }
    }
  }

  // ---------- the bucket of all queries ----------

  /** Who is let through by a budget alone: each request in turn, if it fits into every
      window together with those let through before. */
  ghost function LetThrough(times: seq<real>, burst: real, earn: Earning): seq<int>
    ensures |LetThrough(times, burst, earn)| == |times|
  {
    if times == [] then []
    else
      var n := |times| - 1;
      var before := LetThrough(times[..n], burst, earn);
      before + [if Fits(before, times, burst, earn, n) then 1 else 0]
  }

  function GlobalLevel(l: Limits, s: State, now: real): real { Refilled(s.global, l.globalEarn, l.burst, now) }

  function GlobalLevels(l: Limits, ss: seq<State>, rs: seq<Request>): seq<real>
    requires |ss| == |rs| + 1
  {
    seq(|rs|, i requires 0 <= i < |rs| => GlobalLevel(l, ss[i], rs[i].now))
  }

  function Charge(l: Limits, s: State, now: real): int { if GlobalLevel(l, s, now) >= 1.0 then 1 else 0 }

  function Charges(l: Limits, ss: seq<State>, rs: seq<Request>): seq<int>
    requires |ss| == |rs| + 1
  {
    seq(|rs|, i requires 0 <= i < |rs| => Charge(l, ss[i], rs[i].now))
  }

  lemma GlobalCharge(l: Limits, s: State, r: Request)
    ensures Next(l, s, r).global == Bucket(GlobalLevel(l, s, r.now) - Charge(l, s, r.now) as real, Some(r.now))
  {
  }

  lemma LevelAfter(b: Bucket, earn: Earning, burst: real, tokens: real, then_: real, now: real)
    requires Steady(earn) && b == Bucket(tokens, Some(then_)) && tokens <= burst && then_ <= now
    ensures Refilled(b, earn, burst, now) == MinReal(burst, tokens + earn(now - then_))
  {
    EarnNothing(earn);
    assert now == then_ ==> now - then_ == 0.0;
  }

  /** The level of the global bucket moves as a purse does. */
  lemma GlobalLevelMoves(l: Limits, start: real, ss: seq<State>, rs: seq<Request>, i: nat)
    requires Sensible(l) && Run(l, start, ss, rs) && i < |rs|
    ensures GlobalLevel(l, ss[i], rs[i].now) == if i == 0 then l.burst else
              MinReal(l.burst, GlobalLevel(l, ss[i - 1], rs[i - 1].now) - Charge(l, ss[i - 1], rs[i - 1].now) as real + l.globalEarn(rs[i].now - rs[i - 1].now))
  {
    AlwaysHealthy(l, start, ss, rs, i);
    if i == 0 {
      LevelAfter(ss[0].global, l.globalEarn, l.burst, l.burst, start, rs[0].now);
      assert l.globalEarn(rs[0].now - start) >= 0.0;
    } else {
      assert Follows(l, ss, rs, i - 1);
      GlobalCharge(l, ss[i - 1], rs[i - 1]);
      LevelAfter(ss[i].global, l.globalEarn, l.burst, ss[i].global.tokens, rs[i - 1].now, rs[i].now);
    }
  }

  lemma GlobalLevelLater(l: Limits, start: real, ss: seq<State>, rs: seq<Request>, i: nat)
    requires Sensible(l) && Run(l, start, ss, rs) && 0 < i < |rs|
    ensures var level, paid := GlobalLevels(l, ss, rs), Charges(l, ss, rs);
            level[i] == MinReal(l.burst, Later(level, paid, Times(rs), l.globalEarn, i))
  {
    GlobalLevelMoves(l, start, ss, rs, i);
    var level, paid, times := GlobalLevels(l, ss, rs), Charges(l, ss, rs), Times(rs);
    assert level[i - 1] == GlobalLevel(l, ss[i - 1], rs[i - 1].now) && paid[i - 1] == Charge(l, ss[i - 1], rs[i - 1].now);
    assert times[i] == rs[i].now && times[i - 1] == rs[i - 1].now;
  }

  lemma GlobalLevelsMove(l: Limits, start: real, ss: seq<State>, rs: seq<Request>)
    requires Sensible(l) && Run(l, start, ss, rs)
    ensures LevelsAbove(GlobalLevels(l, ss, rs), Charges(l, ss, rs), Times(rs), l.burst, l.globalEarn)
    ensures LevelsBelow(GlobalLevels(l, ss, rs), Charges(l, ss, rs), Times(rs), l.burst, l.globalEarn)
  {
    var level, paid, times := GlobalLevels(l, ss, rs), Charges(l, ss, rs), Times(rs);
    if rs != [] {
      GlobalLevelMoves(l, start, ss, rs, 0);
    }
    forall i | 0 < i < |level| ensures level[i] == MinReal(l.burst, Later(level, paid, times, l.globalEarn, i)) {
      GlobalLevelLater(l, start, ss, rs, i);
    }
  }

  lemma {:induction false} SumOfPrefix(xs: seq<int>, ys: seq<int>, lo: nat, hi: nat)
    requires lo <= hi <= |xs| && hi <= |ys| && xs[..hi] == ys[..hi]
    ensures Sum(xs, lo, hi) == Sum(ys, lo, hi)
  {
    if lo < hi {
      assert xs[hi - 1] == xs[..hi][hi - 1] && ys[hi - 1] == ys[..hi][hi - 1];
      assert xs[..hi - 1] == xs[..hi][..hi - 1] && ys[..hi - 1] == ys[..hi][..hi - 1];
      SumOfPrefix(xs, ys, lo, hi - 1);
    }
  }

  lemma FitsByPrefix(xs: seq<int>, ys: seq<int>, times: seq<real>, burst: real, earn: Earning, i: nat)
    requires i < |times| && i <= |xs| && i <= |ys| && xs[..i] == ys[..i]
    ensures Fits(xs, times, burst, earn, i) <==> Fits(ys, times, burst, earn, i)
  {
    forall lo: nat | lo <= i ensures FitsSince(xs, times, burst, earn, lo, i) <==> FitsSince(ys, times, burst, earn, lo, i) {
      SumOfPrefix(xs, ys, lo, i);
    }
  }

  lemma FitsByTimes(paid: seq<int>, times: seq<real>, other: seq<real>, burst: real, earn: Earning, i: nat)
    requires i < |times| && i < |other| && i <= |paid| && times[..i + 1] == other[..i + 1]
    ensures Fits(paid, times, burst, earn, i) <==> Fits(paid, other, burst, earn, i)
  {
    forall lo: nat | lo <= i ensures FitsSince(paid, times, burst, earn, lo, i) <==> FitsSince(paid, other, burst, earn, lo, i) {
      assert times[lo] == times[..i + 1][lo] == other[..i + 1][lo] && times[i] == times[..i + 1][i] == other[..i + 1][i];
    }
  }

  /** Request by request, whether it is let through by the budget of all queries. */
  lemma {:induction false} LetThroughAt(times: seq<real>, burst: real, earn: Earning, i: nat)
    requires i < |times|
    ensures var passed := LetThrough(times, burst, earn); passed[i] == if Fits(passed, times, burst, earn, i) then 1 else 0
  {
    var n := |times| - 1;
    var before, passed := LetThrough(times[..n], burst, earn), LetThrough(times, burst, earn);
    if i < n {
      LetThroughAt(times[..n], burst, earn, i);
      assert times[..n][..i + 1] == times[..i + 1];
      FitsByTimes(before, times[..n], times, burst, earn, i);
      FitsByPrefix(before, passed, times, burst, earn, i);
    } else {
      FitsByPrefix(before, passed, times, burst, earn, i);
    }
  }

  /** There is one way to let requests through by a budget. */
  lemma {:induction false} OnlyFairWay(paid: seq<int>, times: seq<real>, burst: real, earn: Earning, n: nat)
    requires |paid| == |times| && n <= |times|
    requires forall i :: 0 <= i < |paid| ==> paid[i] == if Fits(paid, times, burst, earn, i) then 1 else 0
    ensures paid[..n] == LetThrough(times, burst, earn)[..n]
  {
    if n > 0 {
      var i := n - 1;
      var passed := LetThrough(times, burst, earn);
      OnlyFairWay(paid, times, burst, earn, i);
      LetThroughAt(times, burst, earn, i);
      FitsByPrefix(paid, passed, times, burst, earn, i);
      assert paid[..n] == paid[..i] + [paid[i]] && passed[..n] == passed[..i] + [passed[i]];
    }
  }

  lemma ChargeIsFair(l: Limits, start: real, ss: seq<State>, rs: seq<Request>, i: nat)
    requires Sensible(l) && Run(l, start, ss, rs) && i < |rs|
    ensures Charges(l, ss, rs)[i] == if Fits(Charges(l, ss, rs), Times(rs), l.burst, l.globalEarn, i) then 1 else 0
  {
    GlobalLevelsMove(l, start, ss, rs);
    LevelFits(GlobalLevels(l, ss, rs), Charges(l, ss, rs), Times(rs), l.burst, l.globalEarn, i);
  }

  /** The global bucket charges exactly those whom the budget lets through. */
  lemma {:induction false} ChargesAreFair(l: Limits, start: real, ss: seq<State>, rs: seq<Request>)
    requires Sensible(l) && Run(l, start, ss, rs)
    ensures Charges(l, ss, rs) == LetThrough(Times(rs), l.burst, l.globalEarn)
  {
    var charges, times := Charges(l, ss, rs), Times(rs);
    forall i | 0 <= i < |charges| ensures charges[i] == if Fits(charges, times, l.burst, l.globalEarn, i) then 1 else 0 {
      ChargeIsFair(l, start, ss, rs, i);
    }
    OnlyFairWay(charges, times, l.burst, l.globalEarn, |times|);
    assert charges[..|times|] == charges;
  }

  // ---------- the bucket of a client ----------

  function ClientLevels(l: Limits, ss: seq<State>, rs: seq<Request>, a: Address): seq<real>
    requires |ss| == |rs| + 1
  {
    seq(|rs|, i requires 0 <= i < |rs| => Purse(l, ss[i], a, rs[i].now))
  }

  /** There is no room for a new client: the table is full of clients seen lately. */
  predicate NoRoom(s: State, r: Request) {
    r.client !in s.clients && |s.clients| >= 10_000 && forall a :: a in s.clients ==> !Idle(s.clients[a], r.now)
  }

  lemma NoRoomMeans(s: State, r: Request)
    requires |s.clients| <= MAX_CLIENTS
    ensures var clients := TableFor(s.clients, r.client, r.now);
            r.client !in clients && |clients| >= MAX_CLIENTS <==> NoRoom(s, r)
  {
    var kept := Pruned(s.clients, r.now);
    assert kept.Keys <= s.clients.Keys;
    assert |kept| == |kept.Keys| && |s.clients| == |s.clients.Keys|;
    if NoRoom(s, r) {
      assert kept.Keys == s.clients.Keys;
    } else if a :| a in s.clients && Idle(s.clients[a], r.now) {
      assert kept.Keys <= s.clients.Keys - {a};
      SmallerSet(kept.Keys, s.clients.Keys - {a});
    }
  }

  lemma SmallerSet<T>(x: set<T>, y: set<T>)
    requires x <= y
    ensures |x| <= |y|
  {
    assert y == x + (y - x);
  }

  /** A request is granted if the global bucket, the table and its own bucket allow it. */
  lemma GrantedMeans(l: Limits, s: State, r: Request)
    requires |s.clients| <= MAX_CLIENTS
    ensures Allow(l, s, r.client, r.now).1 <==> Charge(l, s, r.now) == 1 && !NoRoom(s, r) && Purse(l, s, r.client, r.now) >= 1.0
  {
    NoRoomMeans(s, r);
  }

  /** Time fills a bucket up to the burst, however often it is looked at. */
  lemma PurseLater(l: Limits, s: State, a: Address, then_: real, now: real)
    requires Sensible(l) && Healthy(l, s, then_) && then_ <= now
    ensures Purse(l, s, a, now) == MinReal(l.burst, Purse(l, s, a, then_) + l.clientEarn(now - then_))
  {
    assert l.clientEarn(now - then_) >= 0.0;
    if a in s.clients {
      var b := s.clients[a];
      EarnOnTop(l.clientEarn, b.updated.value, then_, now);
      LevelAfter(b, l.clientEarn, l.burst, b.tokens, b.updated.value, then_);
      LevelAfter(b, l.clientEarn, l.burst, b.tokens, b.updated.value, now);
    }
  }

  /** A request leaves each client at least what it had, less what it was granted. */
  lemma PurseAfter(l: Limits, s: State, r: Request, a: Address)
    requires Sensible(l) && Healthy(l, s, r.now)
    ensures var left, after := Purse(l, s, a, r.now) - Granted(l, s, r, Some(a)) as real, Purse(l, Next(l, s, r), a, r.now);
            (after == left || after == l.burst >= left) && (l.clientEarn(IDLE_LIMIT) >= l.burst ==> after == left)
  {
    PurseAtMostBurst(l, s, a, r.now);
    var clients := TableFor(s.clients, r.client, r.now);
    if a in s.clients && a !in clients && l.clientEarn(IDLE_LIMIT) >= l.burst {
      IdleIsFull(l.clientEarn, l.burst, s.clients[a], r.now);
    }
  }

  lemma ClientLevelMoves(l: Limits, start: real, ss: seq<State>, rs: seq<Request>, a: Address, i: nat)
    requires Sensible(l) && Run(l, start, ss, rs) && 0 < i < |rs|
    ensures var level, paid := ClientLevels(l, ss, rs, a), Payments(l, ss, rs, Some(a));
            var later := Later(level, paid, Times(rs), l.clientEarn, i);
            && (level[i] >= l.burst || level[i] >= later)
            && (l.clientEarn(IDLE_LIMIT) >= l.burst ==> level[i] <= later)
  {
    AlwaysHealthy(l, start, ss, rs, i - 1);
    AlwaysHealthy(l, start, ss, rs, i);
    assert Follows(l, ss, rs, i - 1);
    HealthyLater(l, ss[i - 1], LastTime(start, rs, i - 1), rs[i - 1].now);
    PurseAfter(l, ss[i - 1], rs[i - 1], a);
    PurseLater(l, ss[i], a, rs[i - 1].now, rs[i].now);
    assert l.clientEarn(rs[i].now - rs[i - 1].now) >= 0.0;
  }

  lemma ClientLevelsMove(l: Limits, start: real, ss: seq<State>, rs: seq<Request>, a: Address)
    requires Sensible(l) && Run(l, start, ss, rs)
    ensures LevelsAbove(ClientLevels(l, ss, rs, a), Payments(l, ss, rs, Some(a)), Times(rs), l.burst, l.clientEarn)
    ensures l.clientEarn(IDLE_LIMIT) >= l.burst ==>
              LevelsBelow(ClientLevels(l, ss, rs, a), Payments(l, ss, rs, Some(a)), Times(rs), l.burst, l.clientEarn)
  {
    forall i | 0 <= i < |rs| ensures ClientLevels(l, ss, rs, a)[i] <= l.burst {
      AlwaysHealthy(l, start, ss, rs, i);
      PurseAtMostBurst(l, ss[i], a, rs[i].now);
    }
    forall i | 0 < i < |rs|
      ensures var level, paid := ClientLevels(l, ss, rs, a), Payments(l, ss, rs, Some(a));
              var later := Later(level, paid, Times(rs), l.clientEarn, i);
              && (level[i] >= l.burst || level[i] >= later)
              && (l.clientEarn(IDLE_LIMIT) >= l.burst ==> level[i] <= later)
    {
      ClientLevelMoves(l, start, ss, rs, a, i);
    }
  }

  // ---------- the decision ----------

  /** The request fits into every window of the budget of all queries, together with those
      that fitted before. */
  ghost predicate GlobalFits(l: Limits, rs: seq<Request>, i: nat)
    requires i < |rs|
  {
    Fits(LetThrough(Times(rs), l.burst, l.globalEarn), Times(rs), l.burst, l.globalEarn, i)
  }

  /** It fits into every window of its client's budget, together with the client's grants. */
  ghost predicate ClientFits(l: Limits, ss: seq<State>, rs: seq<Request>, i: nat)
    requires |ss| == |rs| + 1 && i < |rs|
  {
    Fits(Payments(l, ss, rs, Some(rs[i].client)), Times(rs), l.burst, l.clientEarn, i)
  }

  lemma GlobalDecides(l: Limits, start: real, ss: seq<State>, rs: seq<Request>, i: nat)
    requires Sensible(l) && Run(l, start, ss, rs) && i < |rs|
    ensures Charge(l, ss[i], rs[i].now) == 1 <==> GlobalFits(l, rs, i)
  {
    ChargesAreFair(l, start, ss, rs);
    ChargeIsFair(l, start, ss, rs, i);
  }

  lemma Decision(l: Limits, start: real, ss: seq<State>, rs: seq<Request>, i: nat)
    requires Sensible(l) && Run(l, start, ss, rs) && i < |rs|
    ensures GlobalFits(l, rs, i) && !NoRoom(ss[i], rs[i]) && ClientFits(l, ss, rs, i) ==> Allow(l, ss[i], rs[i].client, rs[i].now).1
    ensures Allow(l, ss[i], rs[i].client, rs[i].now).1 ==> GlobalFits(l, rs, i) && !NoRoom(ss[i], rs[i])
    ensures Allow(l, ss[i], rs[i].client, rs[i].now).1 && l.clientEarn(IDLE_LIMIT) >= l.burst ==> ClientFits(l, ss, rs, i)
  {
    var a := rs[i].client;
    AlwaysHealthy(l, start, ss, rs, i);
    GlobalDecides(l, start, ss, rs, i);
    GrantedMeans(l, ss[i], rs[i]);
    ClientLevelsMove(l, start, ss, rs, a);
    LevelFits(ClientLevels(l, ss, rs, a), Payments(l, ss, rs, Some(a)), Times(rs), l.burst, l.clientEarn, i);
  }

  /** A query is refused only for a reason: it exceeds the budget of all queries in some
      window, the table has no room for its client, or it exceeds the client's budget in
      some window. */
  lemma RefusedForAReason(globalQps: nat, clientQps: nat, burst: nat, start: real, ss: seq<State>, rs: seq<Request>, i: nat)
    requires Run(Configured(globalQps, clientQps, burst), start, ss, rs) && i < |rs|
    ensures var l := Configured(globalQps, clientQps, burst);
            !Allow(l, ss[i], rs[i].client, rs[i].now).1 ==> !GlobalFits(l, rs, i) || NoRoom(ss[i], rs[i]) || !ClientFits(l, ss, rs, i)
  {
    ConfiguredIsSensible(globalQps, clientQps, burst);
    Decision(Configured(globalQps, clientQps, burst), start, ss, rs, i);
  }

  /** When ten minutes make up the burst, a query is granted exactly if it fits into every
      window of both budgets and the table has room. */
  lemma GrantedExactly(globalQps: nat, clientQps: nat, burst: nat, start: real, ss: seq<State>, rs: seq<Request>, i: nat)
    requires 600 * clientQps >= burst && Run(Configured(globalQps, clientQps, burst), start, ss, rs) && i < |rs|
    ensures var l := Configured(globalQps, clientQps, burst);
            Allow(l, ss[i], rs[i].client, rs[i].now).1 <==> GlobalFits(l, rs, i) && !NoRoom(ss[i], rs[i]) && ClientFits(l, ss, rs, i)
  {
    ConfiguredIsSensible(globalQps, clientQps, burst);
    assert PerSecond(clientQps)(IDLE_LIMIT) == 600.0 * clientQps as real;
    Decision(Configured(globalQps, clientQps, burst), start, ss, rs, i);
  }

  lemma {:induction false} SumGrows(xs: seq<int>, lo: nat, hi: nat)
    requires lo <= hi <= |xs| && forall i :: 0 <= i < |xs| ==> xs[i] >= 0
    ensures 0 <= Sum(xs, lo, hi) <= Sum(xs, 0, hi)
  {
    if lo < hi {
      SumGrows(xs, lo, hi - 1);
    } else if hi > 0 {
      SumGrows(xs, hi - 1, hi - 1);
      SumGrows(xs, 0, hi - 1);
    }
  }

  /** The burst can be used: among its first grants, as many as the burst, no client is
      refused on its own account. */
  lemma BurstIsUsable(globalQps: nat, clientQps: nat, burst: nat, start: real, ss: seq<State>, rs: seq<Request>, i: nat)
    requires Run(Configured(globalQps, clientQps, burst), start, ss, rs) && i < |rs|
    requires var l := Configured(globalQps, clientQps, burst);
             GlobalFits(l, rs, i) && !NoRoom(ss[i], rs[i]) && Count(l, ss, rs, Some(rs[i].client), 0, i) < burst
    ensures Allow(Configured(globalQps, clientQps, burst), ss[i], rs[i].client, rs[i].now).1
  {
    var l := Configured(globalQps, clientQps, burst);
    ConfiguredIsSensible(globalQps, clientQps, burst);
    var paid, times := Payments(l, ss, rs, Some(rs[i].client)), Times(rs);
    forall lo: nat | lo <= i ensures FitsSince(paid, times, l.burst, l.clientEarn, lo, i) {
      SumGrows(paid, lo, i);
      assert l.clientEarn(times[i] - times[lo]) >= 0.0;
    }
    Decision(l, start, ss, rs, i);
  }
}
