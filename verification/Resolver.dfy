/** The decision path of a query: filter, local answers, cache, routed upstream. One
    function serves real queries and dry runs, as in the server. */
module Resolver {
  import opened Dns
  import opened AnswerChain
  import Cache = CacheSpec
  import Forwarding

  const MAX_DEPTH := 16

  // ---------- the surroundings of a query ----------

  /** `Rewrite` and `Zone` name the layer that answered locally. */
  datatype Layer = RewriteLayer | ZoneLayer

  datatype LocalMatch = LocalMatch(msg: Msg, layer: Layer)

  type Route = Option<Forwarding.Rule>

  /** Everything that stays fixed while one query is resolved. The filter is the policy
      of the querying client; `reply` is what the resolvers of a route say at a time, if
      they say anything. */
  datatype Env = Env(
    cancelled: bool,
    blockZero: bool,
    filter: Option<Name -> bool>,
    allows: Name -> bool,
    local: Option<Msg -> Option<LocalMatch>>,
    routes: Forwarding.Table,
    reply: (Route, Msg, int) -> Option<Msg>,
    wireLength: Msg -> nat)

  // ---------- results ----------

  datatype Source = LocalSource | CacheSource | BlockedSource | UpstreamSource | RefusedSource

  datatype Reason = TooDeep | Cancelled | NoReply

  datatype Outcome = Done(message: Msg, source: Source, upstream: Route) | Failed(source: Source, reason: Reason)

  datatype Stage = FilterStage | LocalStage(layer: Layer) | CacheStage | ForwardStage | RefuseStage

  datatype Verdict = Passed | Blocked | Allowed | NoMatch | Answered | Hit | Miss | Refused | WouldForward

  datatype Step = Step(stage: Stage, verdict: Verdict, depth: nat, route: Route, ttl: U32)

  /** No trace means a real query. */
  type Trace = Option<seq<Step>>

  function Add(t: Trace, s: Step): Trace {
    if t.None? then None else Some(t.value + [s])
  }

  /** The question a real query sent upstream, and by which route. */
  datatype Sent = Sent(q: Msg, route: Route)

  datatype Run = Run(outcome: Outcome, cache: Cache.State, trace: Trace, sent: Option<Sent>)

  // ---------- filtering ----------

  predicate BlockedName(env: Env, n: Name) { env.filter.Some? && env.filter.value(n) }

  /** The answer given instead of a blocked one. */
  function BlockedReply(env: Env, q: Msg): Outcome {
    var m := Reply(q, if env.blockZero then SUCCESS else NAME_ERROR).(recursionAvailable := true);
    if env.blockZero && |q.questions| > 0 && q.questions[0].qtype in {TYPE_A, TYPE_AAAA} then
      var question := q.questions[0];
      var zero := if question.qtype == TYPE_A then "0.0.0.0" else "::";
      Done(m.(answer := [RR(question.name, 0, Raw(question.qtype, Content([zero], 0)))]), BlockedSource, None)
    else Done(m, BlockedSource, None)
  }

  predicate Offends(env: Env, rr: RR) {
    BlockedName(env, rr.owner) || (rr.data.Alias? && BlockedName(env, rr.data.target))
  }

  /** The first blocked owner or alias target of an answer. */
  function BlockedAnswerName(env: Env, answer: seq<RR>): (n: Option<Name>)
    ensures n.None? <==> forall rr :: rr in answer ==> !Offends(env, rr)
    ensures n.Some? ==> BlockedName(env, n.value)
  {
    if answer == [] then None
    else if BlockedName(env, answer[0].owner) then
      assert answer[0] in answer && Offends(env, answer[0]);
      Some(answer[0].owner)
    else if answer[0].data.Alias? && BlockedName(env, answer[0].data.target) then
      assert answer[0] in answer && Offends(env, answer[0]);
      Some(answer[0].data.target)
    else BlockedAnswerName(env, answer[1..])
  }

  function FilterStep(env: Env, t: Trace, depth: nat, n: Name, blocked: bool): Trace {
    var verdict := if blocked then Blocked else if env.allows(n) then Allowed else Passed;
    Add(t, Step(FilterStage, verdict, depth, None, 0))
  }

  // ---------- upstream ----------

  function NotDnssec(): RR -> bool {
    (rr: RR) => rr.Type() !in {TYPE_RRSIG, TYPE_NSEC, TYPE_NSEC3, TYPE_DNSKEY, TYPE_DS}
  }

  function NotOpt(): RR -> bool { (rr: RR) => rr.Type() != TYPE_OPT }

  function Keep(q: Msg, rrs: seq<RR>): seq<RR> {
    var opt := Cache.FirstOpt(q.extra);
    if opt.Some? && opt.value.Edns? && opt.value.dnssecOk then rrs else Filter(NotDnssec(), rrs)
  }

  predicate SameQuestion(a: Msg, b: Msg) {
    && |a.questions| == 1 && |b.questions| == 1
    && Lower(a.questions[0].name) == Lower(b.questions[0].name)
    && a.questions[0].qtype == b.questions[0].qtype && a.questions[0].qclass == b.questions[0].qclass
  }

  /** The checks on a reply and the form in which it is passed on. */
  ghost function Accept(q: Msg, raw: Msg): Option<Msg> {
    if !raw.response || !SameQuestion(q, raw) || !ValidAnswer(q, raw.answer) || raw.rcode in {SERVER_FAILURE, REFUSED} then None
    else
      var extra := if Cache.FirstOpt(q.extra).None? then Filter(NotOpt(), raw.extra) else raw.extra;
      Some(raw.(id := q.id, questions := q.questions, authenticated := raw.authenticated && !q.checkingDisabled,
                answer := Keep(q, raw.answer), ns := Keep(q, raw.ns), extra := Keep(q, extra)))
  }

  function RouteFor(env: Env, q: Msg): Route {
    if |q.questions| == 1 then Closest(env.routes, Lower(q.questions[0].name)) else None
  }

  /** What asking upstream yields now. */
  ghost function Fetch(env: Env, q: Msg, now: int): Option<Msg> {
    var raw := env.reply(RouteFor(env, q), q, now);
    if raw.None? then None else Accept(q, raw.value)
  }

  // ---------- resolving ----------

  /** The part after the local layers: refuse, read the cache, or ask upstream. */
  ghost function Remote(env: Env, c: Cache.State, q: Msg, now: int, depth: nat, t: Trace): Run {
    if !q.recursionDesired then
      Run(Done(Reply(q, REFUSED).(recursionAvailable := true), RefusedSource, None), c,
          Add(t, Step(RefuseStage, Refused, depth, None, 0)), None)
    else if t.Some? then DryRemote(env, c, q, now, depth, t)
    else
      var (c', m) := Cache.Get(c, q, now);
      if m.Some? then
        Run(if BlockedAnswerName(env, m.value.answer).Some? then BlockedReply(env, q) else Done(m.value, CacheSource, None), c', t, None)
      else Ask(env, c', q, now, t)
  }

  ghost function DryRemote(env: Env, c: Cache.State, q: Msg, now: int, depth: nat, t: Trace): Run {
    var peeked := Cache.Peek(c, q, now);
    if peeked.Some? then
      var t' := Add(t, Step(CacheStage, Hit, depth, None, peeked.value.1));
      var bad := BlockedAnswerName(env, peeked.value.0.answer);
      if bad.Some? then Run(BlockedReply(env, q), c, FilterStep(env, t', depth, bad.value, true), None)
      else Run(Done(peeked.value.0, CacheSource, None), c, t', None)
    else
      var t' := Add(t, Step(CacheStage, Miss, depth, None, 0));
      Run(Done(Reply(q, SUCCESS), UpstreamSource, None), c,
          Add(t', Step(ForwardStage, WouldForward, depth, RouteFor(env, q), 0)), None)
  }

  ghost function Ask(env: Env, c: Cache.State, q: Msg, now: int, t: Trace): Run {
    var sent := Some(Sent(q, RouteFor(env, q)));
    var fetched := Fetch(env, q, now);
    if fetched.None? then Run(Failed(UpstreamSource, NoReply), c, t, sent)
    else if BlockedAnswerName(env, fetched.value.answer).Some? then Run(BlockedReply(env, q), c, t, sent)
    else
      var m := Cache.Normalized(fetched.value, c.upstreamTtl);
      Run(Done(m, UpstreamSource, RouteFor(env, q)), Cache.Put(c, q, m, env.wireLength(m), now), t, sent)
  }

  /** Whether a local answer leaves its last alias to be resolved. */
  predicate NeedsTail(q: Msg, m: Msg) {
    && q.recursionDesired && |q.questions| == 1 && q.questions[0].qtype != TYPE_CNAME
    && m.rcode == SUCCESS && m.ns == [] && m.answer != [] && m.answer[|m.answer| - 1].data.Alias?
  }

  function TailQuery(q: Msg, m: Msg): Msg
    requires NeedsTail(q, m)
  {
    q.(questions := [q.questions[0].(name := m.answer[|m.answer| - 1].data.target)])
  }

  /** The local answer continued by what its last alias resolved to. */
  function Stitch(env: Env, q: Msg, m: Msg, tail: Outcome): Outcome {
    match tail
    case Failed(_, reason) => Failed(LocalSource, reason)
    case Done(message, source, upstream) =>
      if source == BlockedSource then BlockedReply(env, q)
      else Done(m.(answer := m.answer + message.answer, ns := message.ns, extra := message.extra, rcode := message.rcode), LocalSource, upstream)
  }

  function LocalFor(env: Env, q: Msg): Option<LocalMatch> {
    if env.local.Some? then env.local.value(q) else None
  }

  function LocalSteps(env: Env, t: Trace, depth: nat, found: Option<LocalMatch>): Trace {
    if env.local.None? then t
    else if found.Some? then Add(t, Step(LocalStage(found.value.layer), Answered, depth, None, 0))
    else Add(Add(t, Step(LocalStage(RewriteLayer), NoMatch, depth, None, 0)), Step(LocalStage(ZoneLayer), NoMatch, depth, None, 0))
  }

  function QuestionSteps(env: Env, q: Msg, t: Trace, depth: nat): Trace {
    if |q.questions| == 1 && env.filter.Some? then
      FilterStep(env, t, depth, q.questions[0].name, BlockedName(env, q.questions[0].name))
    else t
  }

  /** What the filter and the local layers make of a query: an answer, a local answer
      whose last alias is still to be resolved, or nothing. */
  datatype Plan =
    | Stop(outcome: Outcome, trace: Trace)
    | Tail(m: Msg, target: Msg, trace: Trace)
    | Onward(trace: Trace)

  function PlanFor(env: Env, q: Msg, depth: nat, t: Trace): Plan {
    var t1 := QuestionSteps(env, q, t, depth);
    if |q.questions| == 1 && BlockedName(env, q.questions[0].name) then Stop(BlockedReply(env, q), t1)
    else
      var found := LocalFor(env, q);
      var t2 := LocalSteps(env, t1, depth, found);
      if found.None? then Onward(t2)
      else
        var m := found.value.msg;
        var bad := BlockedAnswerName(env, m.answer);
        if bad.Some? then Stop(BlockedReply(env, q), FilterStep(env, t2, depth, bad.value, true))
        else if NeedsTail(q, m) then Tail(m, TailQuery(q, m), t2)
        else Stop(Done(m, LocalSource, None), t2)
  }

  ghost function Resolve(env: Env, c: Cache.State, q: Msg, now: int, depth: nat, t: Trace): Run
    decreases MAX_DEPTH - depth
  {
    if depth >= MAX_DEPTH then Run(Failed(LocalSource, TooDeep), c, t, None)
    else if env.cancelled then Run(Failed(LocalSource, Cancelled), c, t, None)
    else
      match PlanFor(env, q, depth, t)
      case Stop(outcome, t') => Run(outcome, c, t', None)
      case Onward(t') => Remote(env, c, q, now, depth, t')
      case Tail(m, target, t') =>
        var tail := Resolve(env, c, target, now, depth + 1, t');
        tail.(outcome := Stitch(env, q, m, tail.outcome))
  }

  /** Without a trace there is none to pass on. */
  lemma NoTrace(env: Env, q: Msg, depth: nat)
    ensures PlanFor(env, q, depth, None).trace == None
  {
  }

  lemma {:induction false} NoTraceAfter(env: Env, c: Cache.State, q: Msg, now: int, depth: nat)
    ensures Resolve(env, c, q, now, depth, None).trace == None
    decreases MAX_DEPTH - depth
  {
    NoTrace(env, q, depth);
    var plan := PlanFor(env, q, depth, None);
    if depth < MAX_DEPTH && !env.cancelled && plan.Tail? {
      NoTraceAfter(env, c, plan.target, now, depth + 1);
    }
  }

  /** A query gets as far as a plan at this depth. */
  predicate Proceeds(env: Env, depth: nat) { depth < MAX_DEPTH && !env.cancelled }

  /** The local answer to `q` leaves something to be resolved. */
  predicate HasTail(env: Env, q: Msg, depth: nat) { Proceeds(env, depth) && PlanFor(env, q, depth, None).Tail? }

  function TailOf(env: Env, q: Msg, depth: nat): Msg
    requires HasTail(env, q, depth)
  {
    PlanFor(env, q, depth, None).target
  }

  predicate Continues(env: Env, q: Msg, depth: nat, target: Msg) {
    HasTail(env, q, depth) && TailOf(env, q, depth) == target
  }

  /** Nothing local is left to do: the query goes to the cache and upstream. */
  predicate GoesOn(env: Env, q: Msg, depth: nat) { Proceeds(env, depth) && PlanFor(env, q, depth, None).Onward? }

  /** Each query of the path is the tail of the one before, and the last has none. */
  predicate TailPath(env: Env, path: seq<Msg>, depth: nat) {
    && path != [] && !HasTail(env, path[|path| - 1], depth + |path| - 1)
    && forall i :: 0 <= i < |path| - 1 ==> Continues(env, path[i], depth + i, path[i + 1])
  }

  lemma PathOneMore(env: Env, q: Msg, path: seq<Msg>, depth: nat)
    requires TailPath(env, path, depth + 1) && Continues(env, q, depth, path[0])
    ensures TailPath(env, [q] + path, depth)
  {
    var longer := [q] + path;
    forall i | 0 <= i < |path|
      ensures Continues(env, longer[i], depth + i, longer[i + 1])
    {
      if i > 0 {
        assert Continues(env, path[i - 1], depth + 1 + (i - 1), path[i - 1 + 1]);
      }
    }
  }

  lemma {:induction false} FindPath(env: Env, q: Msg, depth: nat) returns (path: seq<Msg>)
    ensures TailPath(env, path, depth) && path[0] == q
    decreases MAX_DEPTH - depth
  {
    path := [q];
    if HasTail(env, q, depth) {
      var rest := FindPath(env, TailOf(env, q, depth), depth + 1);
      PathOneMore(env, q, rest, depth);
      path := [q] + rest;
    }
  }

  /** What a query and its tail have in common, the ends of a path have in common. */
  lemma {:induction false} AlongPath<T>(env: Env, f: (Msg, nat) -> T, path: seq<Msg>, depth: nat, i: nat)
    requires TailPath(env, path, depth) && i < |path|
    requires forall q, d: nat :: HasTail(env, q, d) ==> f(q, d) == f(TailOf(env, q, d), d + 1)
    ensures f(path[0], depth) == f(path[i], depth + i)
  {
    if i > 0 {
      AlongPath(env, f, path, depth, i - 1);
      assert Continues(env, path[i - 1], depth + (i - 1), path[i - 1 + 1]);
    }
  }

  ghost function CacheAfter(env: Env, c: Cache.State, q: Msg, now: int, depth: nat): Cache.State {
    Resolve(env, c, q, now, depth, None).cache
  }

  lemma {:induction false} TailDecides(env: Env, c: Cache.State, q: Msg, now: int, depth: nat)
    requires HasTail(env, q, depth)
    ensures CacheAfter(env, c, q, now, depth) == CacheAfter(env, c, TailOf(env, q, depth), now, depth + 1)
  {
    NoTrace(env, q, depth);
  }

  lemma {:induction false} LastDecides(env: Env, c: Cache.State, q: Msg, now: int, depth: nat)
    requires !HasTail(env, q, depth)
    ensures CacheAfter(env, c, q, now, depth) == if GoesOn(env, q, depth) then Remote(env, c, q, now, depth, None).cache else c
  {
    NoTrace(env, q, depth);
  }

  /** A real query runs through a path of queries, each the tail of the one before; only
      the last can touch the cache. */
  lemma {:induction false} ResolveCache(env: Env, c: Cache.State, path: seq<Msg>, now: int, depth: nat)
    requires TailPath(env, path, depth)
    ensures var at, last := depth + |path| - 1, path[|path| - 1];
            CacheAfter(env, c, path[0], now, depth) == if GoesOn(env, last, at) then Remote(env, c, last, now, at, None).cache else c
  {
    var f := (q: Msg, d: nat) => CacheAfter(env, c, q, now, d);
    forall q, d: nat | HasTail(env, q, d)
      ensures f(q, d) == f(TailOf(env, q, d), d + 1)
    {
      TailDecides(env, c, q, now, d);
    }
    AlongPath(env, f, path, depth, |path| - 1);
    LastDecides(env, c, path[|path| - 1], now, depth + |path| - 1);
  }

  // ---------- a dry run tells the truth ----------

  /** Whether a trace says, from some position on, that a query would go upstream. */
  predicate ForwardsFrom(steps: seq<Step>, k: nat) { exists i :: k <= i < |steps| && steps[i].verdict == WouldForward }

  /** What a dry run says, from position `k` of its trace, about the real query. */
  ghost predicate Agree(dry: Run, k: nat, actual: Run) {
    && dry.sent.None? && dry.trace.Some? && k <= |dry.trace.value|
    && (ForwardsFrom(dry.trace.value, k) <==> actual.sent.Some?)
    && (actual.sent.None? ==> actual.outcome == dry.outcome)
    && (actual.sent.Some? ==>
          && |dry.trace.value| > k
          && var last := dry.trace.value[|dry.trace.value| - 1];
             last.verdict == WouldForward && last.route == actual.sent.value.route)
  }

  /** The steps of `u` after those of `t` do not forward. */
  predicate Extends(t: seq<Step>, u: seq<Step>) {
    t <= u && forall i :: |t| <= i < |u| ==> u[i].verdict != WouldForward
  }

  lemma RemoteAgrees(env: Env, c: Cache.State, q: Msg, now: int, depth: nat, k: nat, t: seq<Step>)
    requires k <= |t| && !ForwardsFrom(t, k)
    ensures var dry := Remote(env, c, q, now, depth, Some(t));
            dry.cache == c && Agree(dry, k, Remote(env, c, q, now, depth, None))
  {
    var dry := Remote(env, c, q, now, depth, Some(t));
    if q.recursionDesired && Cache.Peek(c, q, now).None? {
      assert dry.trace.value[|t| + 1].verdict == WouldForward;
    } else {
      assert Extends(t, dry.trace.value);
    }
  }

  /** Tracing does not influence the plan, and no step before the remote part forwards. */
  ghost predicate SamePlan(t: seq<Step>, dry: Plan, actual: Plan) {
    && dry.trace.Some? && Extends(t, dry.trace.value)
    && actual == match dry
                 case Stop(outcome, _) => Stop(outcome, None)
                 case Tail(m, target, _) => Tail(m, target, None)
                 case Onward(_) => Onward(None)
  }

  lemma PlanIgnoresTrace(env: Env, q: Msg, depth: nat, t: seq<Step>)
    ensures SamePlan(t, PlanFor(env, q, depth, Some(t)), PlanFor(env, q, depth, None))
  {
  }

  lemma StillQuiet(t: seq<Step>, u: seq<Step>, k: nat)
    requires k <= |t| && !ForwardsFrom(t, k) && Extends(t, u)
    ensures !ForwardsFrom(u, k)
  {
  }

  lemma StitchAgrees(env: Env, q: Msg, m: Msg, dry: Run, k: nat, actual: Run)
    requires Agree(dry, k, actual)
    ensures Agree(dry.(outcome := Stitch(env, q, m, dry.outcome)), k, actual.(outcome := Stitch(env, q, m, actual.outcome)))
  {
  }

  /** With filter, rules, cache and clock fixed, a dry run changes nothing. Its trace
      has a would-forward step exactly when the real query goes upstream, and then names
      the route it takes; otherwise both end with the same message, source and error. */
  lemma {:induction false} DryRunTellsTruth(env: Env, c: Cache.State, q: Msg, now: int, depth: nat, k: nat, t: seq<Step>)
    requires k <= |t| && !ForwardsFrom(t, k)
    ensures var dry := Resolve(env, c, q, now, depth, Some(t));
            dry.cache == c && Agree(dry, k, Resolve(env, c, q, now, depth, None))
    decreases MAX_DEPTH - depth
  {
    if depth < MAX_DEPTH && !env.cancelled {
      PlanIgnoresTrace(env, q, depth, t);
      match PlanFor(env, q, depth, Some(t)) {
        case Stop(_, t') => StillQuiet(t, t'.value, k);
        case Onward(t') =>
          StillQuiet(t, t'.value, k);
          RemoteAgrees(env, c, q, now, depth, k, t'.value);
        case Tail(m, target, t') =>
          StillQuiet(t, t'.value, k);
          DryRunTellsTruth(env, c, target, now, depth + 1, k, t'.value);
          StitchAgrees(env, q, m, Resolve(env, c, target, now, depth + 1, t'), k, Resolve(env, c, target, now, depth + 1, None));
      }
    }
  }

  // ---------- the winning step ----------

  /** The verdicts that end a resolution. */
  predicate Terminal(v: Verdict) { v in {Blocked, Answered, Hit, Refused, WouldForward} }

  predicate Wins(steps: seq<Step>, source: Source, i: nat) {
    && i < |steps| && Terminal(steps[i].verdict)
    && if source == BlockedSource && exists j :: 0 <= j < |steps| && steps[j].verdict == Blocked
       then steps[i].verdict == Blocked && forall j :: i < j < |steps| ==> steps[j].verdict != Blocked
       else forall j :: 0 <= j < i ==> !Terminal(steps[j].verdict)
  }

  /** Picks the first terminal step, or the last block if the result is blocked. */
  method Winner(steps: seq<Step>, source: Source) returns (w: Option<Step>)
    ensures w.Some? ==> exists i: nat :: Wins(steps, source, i) && steps[i] == w.value
    ensures w.None? ==> forall i :: 0 <= i < |steps| ==> !Terminal(steps[i].verdict)
  {
    w := None;
    ghost var at := 0;
    for i := 0 to |steps|
      invariant w.None? ==> forall j :: 0 <= j < i ==> !Terminal(steps[j].verdict)
      invariant w.Some? ==> at < i && steps[at] == w.value && Terminal(w.value.verdict)
      invariant w.Some? ==>
                  if source == BlockedSource && w.value.verdict == Blocked
                  then forall j :: at < j < i ==> steps[j].verdict != Blocked
                  else && (forall j :: 0 <= j < at ==> !Terminal(steps[j].verdict))
                       && (source == BlockedSource ==> forall j :: 0 <= j < i ==> steps[j].verdict != Blocked)
    {
      if Terminal(steps[i].verdict) {
        if w.None? || (source == BlockedSource && steps[i].verdict == Blocked) {
          w := Some(steps[i]);
          at := i;
        }
      }
    }
    if w.Some? {
      assert Wins(steps, source, at);
    }
  }

  /** The verdict that explains each kind of result. */
  function Explains(source: Source): Verdict {
    match source
    case BlockedSource => Blocked
    case LocalSource => Answered
    case CacheSource => Hit
    case RefusedSource => Refused
    case UpstreamSource => WouldForward
  }

  /** From position `k` on the trace explains a result: it holds the explaining verdict
      and, unless the result is blocked, nothing terminal before it. */
  ghost predicate ExplainedFrom(steps: seq<Step>, k: nat, source: Source) {
    exists i :: k <= i < |steps| && steps[i].verdict == Explains(source)
             && (source != BlockedSource ==> forall j :: k <= j < i ==> !Terminal(steps[j].verdict))
  }

  ghost predicate SelfExplained(run: Run, t: seq<Step>, k: nat) {
    && run.trace.Some? && t <= run.trace.value && k <= |t|
    && (run.outcome.Done? ==> ExplainedFrom(run.trace.value, k, run.outcome.source))
  }

  /** A stretch of a trace that ends nothing. */
  predicate Quiet(steps: seq<Step>, k: nat) { forall j :: k <= j < |steps| ==> !Terminal(steps[j].verdict) }

  lemma RemoteExplained(env: Env, c: Cache.State, q: Msg, now: int, depth: nat, k: nat, t: seq<Step>)
    requires k <= |t| && Quiet(t, k)
    ensures SelfExplained(Remote(env, c, q, now, depth, Some(t)), t, k)
  {
    var run := Remote(env, c, q, now, depth, Some(t));
    var steps := run.trace.value;
    if q.recursionDesired {
      var peeked := Cache.Peek(c, q, now);
      if peeked.Some? && BlockedAnswerName(env, peeked.value.0.answer).Some? {
        assert steps[|t| + 1].verdict == Blocked;
      } else if peeked.Some? {
        assert steps[|t|].verdict == Hit;
      } else {
        assert steps[|t|].verdict == Miss && steps[|t| + 1].verdict == WouldForward;
      }
    } else {
      assert steps[|t|].verdict == Refused;
    }
  }

  lemma PlanExplained(env: Env, q: Msg, depth: nat, k: nat, t: seq<Step>)
    requires k <= |t| && Quiet(t, k)
    ensures var plan := PlanFor(env, q, depth, Some(t));
            && plan.trace.Some? && t <= plan.trace.value
            && (plan.Stop? && plan.outcome.Done? ==> ExplainedFrom(plan.trace.value, k, plan.outcome.source))
            && (plan.Onward? ==> Quiet(plan.trace.value, k))
            && (plan.Tail? ==> ExplainedFrom(plan.trace.value, k, LocalSource))
  {
    var plan := PlanFor(env, q, depth, Some(t));
    var t1 := QuestionSteps(env, q, Some(t), depth).value;
    if |q.questions| == 1 && BlockedName(env, q.questions[0].name) {
      assert t1[|t|].verdict == Blocked;
    } else {
      assert Quiet(t1, k);
      if LocalFor(env, q).Some? {
        assert plan.trace.value[|t1|].verdict == Answered;
        if BlockedAnswerName(env, LocalFor(env, q).value.msg.answer).Some? {
          assert plan.trace.value[|t1| + 1].verdict == Blocked;
        }
      }
    }
  }

  lemma StitchExplained(env: Env, q: Msg, m: Msg, run: Run, t: seq<Step>, u: seq<Step>, k: nat)
    requires SelfExplained(run, u, |u|) && t <= u && k <= |t| && ExplainedFrom(u, k, LocalSource)
    ensures SelfExplained(run.(outcome := Stitch(env, q, m, run.outcome)), t, k)
  {
    var steps := run.trace.value;
    if run.outcome.Done? && run.outcome.source == BlockedSource {
      var i :| |u| <= i < |steps| && steps[i].verdict == Blocked;
      assert ExplainedFrom(steps, k, BlockedSource);
    }
  }

  /** Every successful dry run explains itself: its trace holds the step that decided. */
  lemma {:induction false} DryRunIsExplained(env: Env, c: Cache.State, q: Msg, now: int, depth: nat, k: nat, t: seq<Step>)
    requires k <= |t| && Quiet(t, k)
    ensures SelfExplained(Resolve(env, c, q, now, depth, Some(t)), t, k)
    decreases MAX_DEPTH - depth
  {
    if depth < MAX_DEPTH && !env.cancelled {
      PlanExplained(env, q, depth, k, t);
      match PlanFor(env, q, depth, Some(t)) {
        case Stop(_, t') =>
        case Onward(t') => RemoteExplained(env, c, q, now, depth, k, t'.value);
        case Tail(m, target, t') =>
          DryRunIsExplained(env, c, target, now, depth + 1, |t'.value|, t'.value);
          StitchExplained(env, q, m, Resolve(env, c, target, now, depth + 1, t'), t, t'.value, k);
      }
    }
  }

  /** So the winner shown for a successful dry run has the verdict that explains it. */
  lemma WinnerExplains(env: Env, c: Cache.State, q: Msg, now: int, run: Run, steps: seq<Step>, i: nat)
    requires run == Resolve(env, c, q, now, 0, Some([])) && run.outcome.Done? && run.trace == Some(steps)
    requires Wins(steps, run.outcome.source, i)
    ensures steps[i].verdict == Explains(run.outcome.source)
  {
    DryRunIsExplained(env, c, q, now, 0, 0, []);
    var w :| 0 <= w < |steps| && steps[w].verdict == Explains(run.outcome.source)
      && (run.outcome.source != BlockedSource ==> forall j :: 0 <= j < w ==> !Terminal(steps[j].verdict));
    if run.outcome.source != BlockedSource {
      assert i == w;
    }
  }

  // ---------- every answer is a clean chain ----------

  /** Local answers are chains that end in an alias only if nothing else is in them. */
  ghost predicate LocalChains(env: Env) {
    forall q :: LocalFor(env, q).Some? ==> |q.questions| == 1 && ChainAnswer(q.questions[0], LocalFor(env, q).value.msg.answer)
  }

  /** Cached messages are chains from the name of their key. */
  predicate CachedChains(c: Cache.State) {
    forall e :: e in c.entries ==> Chain(e.key.name, e.message.answer)
  }

  ghost predicate Clean(env: Env, q: Msg, m: Msg) {
    && (forall rr :: rr in m.answer ==> !Offends(env, rr))
    && (if |q.questions| == 1 then Chain(Lower(q.questions[0].name), m.answer) else m.answer == [])
  }

  ghost predicate CleanRun(env: Env, q: Msg, run: Run) {
    && CachedChains(run.cache)
    && (run.outcome.Done? && run.outcome.source != BlockedSource ==> Clean(env, q, run.outcome.message))
  }

  lemma AcceptedIsChain(q: Msg, raw: Msg)
    requires Accept(q, raw).Some?
    ensures |q.questions| == 1 && Accept(q, raw).value.questions == q.questions
    ensures Chain(Lower(q.questions[0].name), Accept(q, raw).value.answer)
  {
    AcceptableIsChain(Lower(q.questions[0].name), q.questions[0].qtype, raw.answer);
    FilteredChain(NotDnssec(), Lower(q.questions[0].name), raw.answer);
  }

  lemma NormalizedKeepsAnswer(m: Msg, policy: U32)
    ensures var out := Cache.Normalized(m, policy);
            && out.questions == m.questions && |out.answer| == |m.answer|
            && forall i :: 0 <= i < |m.answer| ==> out.answer[i] == m.answer[i].(ttl := out.answer[i].ttl)
  {
    assert Cache.NormalizeNegative(m).answer == m.answer && Cache.NormalizeNegative(m).questions == m.questions;
  }

  lemma SameNamesSameOffence(env: Env, a: seq<RR>, b: seq<RR>)
    requires |a| == |b| && forall i :: 0 <= i < |a| ==> b[i] == a[i].(ttl := b[i].ttl)
    requires forall rr :: rr in a ==> !Offends(env, rr)
    ensures forall rr :: rr in b ==> !Offends(env, rr)
  {
    forall rr | rr in b
      ensures !Offends(env, rr)
    {
      var i :| 0 <= i < |b| && b[i] == rr;
      assert a[i] in a;
    }
  }

  lemma GetKeepsChains(c: Cache.State, q: Msg, now: int)
    requires CachedChains(c)
    ensures CachedChains(Cache.Get(c, q, now).0)
    ensures var m := Cache.Get(c, q, now).1; m.Some? ==> |q.questions| == 1 && Chain(Lower(q.questions[0].name), m.value.answer)
  {
    var found := Cache.FindFor(c.entries, q);
    if found.Some? {
      var e := found.value;
      Cache.FindMember(c.entries, e.key);
      Cache.FindMember(c.entries, Cache.KeyOf(q).value);
      FilterMembers(Cache.OtherKey(e.key), c.entries);
      SameOwnersSameChain(e.key.name, e.message.answer, Cache.AgeAll(e.message.answer, Cache.AgeOf(e, now)));
    }
  }

  lemma PutKeepsChains(c: Cache.State, q: Msg, m: Msg, wireLength: nat, now: int)
    requires CachedChains(c) && |q.questions| == 1 && Chain(Lower(q.questions[0].name), m.answer)
    ensures CachedChains(Cache.Put(c, q, m, wireLength, now))
  {
    if Cache.Storable(c.max, q, m, wireLength) {
      var e := Cache.EntryFor(q, m, now);
      FilterMembers(Cache.OtherKey(e.key), c.entries);
      var kept := Cache.Without(c.entries, e.key);
      assert forall x :: x in Cache.Room(kept, c.max) ==> x in kept;
    }
  }

  lemma AskIsClean(env: Env, c: Cache.State, q: Msg, now: int)
    requires CachedChains(c)
    ensures CleanRun(env, q, Ask(env, c, q, now, None))
  {
    var fetched := Fetch(env, q, now);
    if fetched.Some? && BlockedAnswerName(env, fetched.value.answer).None? {
      var raw := env.reply(RouteFor(env, q), q, now).value;
      AcceptedIsChain(q, raw);
      var m := Cache.Normalized(fetched.value, c.upstreamTtl);
      NormalizedKeepsAnswer(fetched.value, c.upstreamTtl);
      SameOwnersSameChain(Lower(q.questions[0].name), fetched.value.answer, m.answer);
      SameNamesSameOffence(env, fetched.value.answer, m.answer);
      PutKeepsChains(c, q, m, env.wireLength(m), now);
    }
  }

  lemma RemoteIsClean(env: Env, c: Cache.State, q: Msg, now: int, depth: nat)
    requires CachedChains(c)
    ensures CleanRun(env, q, Remote(env, c, q, now, depth, None))
  {
    if q.recursionDesired {
      GetKeepsChains(c, q, now);
      var (c', m) := Cache.Get(c, q, now);
      if m.None? {
        AskIsClean(env, c', q, now);
      }
    }
  }

  /** What the plan yields when local answers are chains. */
  lemma PlanIsClean(env: Env, q: Msg, depth: nat)
    requires LocalChains(env)
    ensures var plan := PlanFor(env, q, depth, None);
            && plan.trace.None?
            && (plan.Stop? && plan.outcome.Done? && plan.outcome.source != BlockedSource ==> Clean(env, q, plan.outcome.message))
            && (plan.Tail? ==>
                  && |q.questions| == 1 && |plan.target.questions| == 1 && AllAliases(plan.m.answer) && Clean(env, q, plan.m)
                  && Lower(plan.target.questions[0].name) == Tip(Lower(q.questions[0].name), plan.m.answer))
  {
  }

  lemma StitchIsClean(env: Env, q: Msg, m: Msg, target: Msg, tail: Outcome)
    requires |q.questions| == 1 && |target.questions| == 1 && AllAliases(m.answer) && Clean(env, q, m)
    requires Lower(target.questions[0].name) == Tip(Lower(q.questions[0].name), m.answer)
    requires tail.Done? && tail.source != BlockedSource ==> Clean(env, target, tail.message)
    ensures var out := Stitch(env, q, m, tail); out.Done? && out.source != BlockedSource ==> Clean(env, q, out.message)
  {
    if tail.Done? && tail.source != BlockedSource {
      ChainsJoin(Lower(q.questions[0].name), m.answer, tail.message.answer);
    }
  }

  /** Every result that is not a block, whether local, cached, fetched or stitched, is a
      connected chain from the question in which no owner and no alias target is blocked
      for the client; and the cache keeps holding chains. */
  lemma {:induction false} ResultsAreClean(env: Env, c: Cache.State, q: Msg, now: int, depth: nat)
    requires LocalChains(env) && CachedChains(c)
    ensures CleanRun(env, q, Resolve(env, c, q, now, depth, None))
    decreases MAX_DEPTH - depth
  {
    if depth < MAX_DEPTH && !env.cancelled {
      PlanIsClean(env, q, depth);
      match PlanFor(env, q, depth, None) {
        case Stop(_, _) =>
        case Onward(_) => RemoteIsClean(env, c, q, now, depth);
        case Tail(m, target, _) =>
          ResultsAreClean(env, c, target, now, depth + 1);
          StitchIsClean(env, q, m, target, Resolve(env, c, target, now, depth + 1, None).outcome);
      }
    }
  }

  /** A question for a blocked name never gets past the filter. */
  lemma BlockedQuestionIsBlocked(env: Env, c: Cache.State, q: Msg, now: int, t: Trace)
    requires |q.questions| == 1 && BlockedName(env, q.questions[0].name) && !env.cancelled
    ensures var run := Resolve(env, c, q, now, 0, t); run.outcome == BlockedReply(env, q) && run.cache == c && run.sent.None?
  {
  }
}
