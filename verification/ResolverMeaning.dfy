/** What a query is told, said without the code that puts it together: which queries it
    runs through, what decides the last of them, and how the answers are joined. */
module ResolverMeaning {
  import opened Dns
  import opened AnswerChain
  import opened Resolver
  import Cache = CacheSpec

  // ---------- replies the server makes itself ----------

  /** An empty reply repeats identifier, opcode and first question of its query. */
  predicate RepliesTo(q: Msg, m: Msg, rcode: nat) {
    && m.id == q.id && m.opcode == q.opcode && m.response && !m.truncated && !m.authenticated
    && (if q.questions == [] then m.questions == [] else m.questions == [q.questions[0]])
    && m.recursionDesired == (q.opcode == 0 && q.recursionDesired)
    && m.checkingDisabled == (q.opcode == 0 && q.checkingDisabled)
    && m.rcode == rcode && m.ns == [] && m.extra == []
  }

  /** The null address of the type asked for. */
  predicate IsNull(rr: RR, question: Question) {
    && rr.owner == question.name && rr.ttl == 0 && rr.Type() == question.qtype
    && (question.qtype == TYPE_A ==> rr.data == Raw(TYPE_A, Content(["0.0.0.0"], 0)))
    && (question.qtype == TYPE_AAAA ==> rr.data == Raw(TYPE_AAAA, Content(["::"], 0)))
  }

  /** A block says that the name does not exist or, in the other mode, gives the null
      address to those who ask for an address and nothing to others. */
  ghost predicate SaysBlocked(env: Env, q: Msg, out: Outcome) {
    && out.Done? && out.source == BlockedSource && out.upstream == None
    && RepliesTo(q, out.message, if env.blockZero then SUCCESS else NAME_ERROR)
    && out.message.recursionAvailable && !out.message.authoritative
    && (if env.blockZero && q.questions != [] && (q.questions[0].qtype == TYPE_A || q.questions[0].qtype == TYPE_AAAA)
        then |out.message.answer| == 1 && IsNull(out.message.answer[0], q.questions[0])
        else out.message.answer == [])
  }

  lemma BlockedReplyMeans(env: Env, q: Msg)
    ensures SaysBlocked(env, q, BlockedReply(env, q))
  {
  }

  ghost predicate SaysRefused(q: Msg, out: Outcome) {
    && out.Done? && out.source == RefusedSource && out.upstream == None
    && RepliesTo(q, out.message, REFUSED) && out.message.recursionAvailable && out.message.answer == []
  }

  // ---------- replies from upstream ----------

  ghost predicate UsesEdns(q: Msg) { exists rr :: rr in q.extra && rr.data.Edns? }

  predicate IsDnssec(rr: RR) {
    rr.Type() == TYPE_RRSIG || rr.Type() == TYPE_NSEC || rr.Type() == TYPE_NSEC3 || rr.Type() == TYPE_DNSKEY || rr.Type() == TYPE_DS
  }

  /** `out` is `rrs` without the records that must go, in order. */
  ghost predicate Without(rrs: seq<RR>, out: seq<RR>, goes: RR -> bool) {
    if rrs == [] then out == []
    else if goes(rrs[0]) then Without(rrs[1..], out, goes)
    else out != [] && out[0] == rrs[0] && Without(rrs[1..], out[1..], goes)
  }

  ghost function DropDnssec(q: Msg): RR -> bool { (rr: RR) => !Cache.WantsDnssec(q) && IsDnssec(rr) }
  ghost function DropEdns(q: Msg): RR -> bool { (rr: RR) => !UsesEdns(q) && rr.Type() == TYPE_OPT }
  ghost function DropExtra(q: Msg): RR -> bool { (rr: RR) => DropEdns(q)(rr) || DropDnssec(q)(rr) }

  /** What may be passed on: a response to this question whose answer is acceptable and
      that is no failure. */
  ghost predicate Trusted(q: Msg, raw: Msg) {
    && raw.response && raw.rcode != SERVER_FAILURE && raw.rcode != REFUSED
    && |q.questions| == 1 && |raw.questions| == 1
    && Lower(raw.questions[0].name) == Lower(q.questions[0].name)
    && raw.questions[0].qtype == q.questions[0].qtype && raw.questions[0].qclass == q.questions[0].qclass
    && ValidAnswer(q, raw.answer)
  }

  /** The form in which it is passed on: identifier and question of the query, no
      authentic-data flag for those who disabled checking, DNSSEC records only for those
      who ask for them and EDNS only for those who use it. */
  ghost predicate PassedOn(q: Msg, raw: Msg, m: Msg) {
    && m.id == q.id && m.questions == q.questions && m.rcode == raw.rcode && m.response == raw.response && m.opcode == raw.opcode
    && m.authoritative == raw.authoritative && m.truncated == raw.truncated
    && m.recursionDesired == raw.recursionDesired && m.recursionAvailable == raw.recursionAvailable
    && m.checkingDisabled == raw.checkingDisabled
    && m.authenticated == (raw.authenticated && !q.checkingDisabled)
    && Without(raw.answer, m.answer, DropDnssec(q)) && Without(raw.ns, m.ns, DropDnssec(q)) && Without(raw.extra, m.extra, DropExtra(q))
  }

  lemma {:induction false} FilterIsWithout(stays: RR -> bool, rrs: seq<RR>, goes: RR -> bool)
    requires forall rr :: goes(rr) <==> !stays(rr)
    ensures Without(rrs, Filter(stays, rrs), goes)
  {
    if rrs != [] {
      FilterIsWithout(stays, rrs[1..], goes);
    }
  }

  lemma {:induction false} NothingGoes(rrs: seq<RR>, goes: RR -> bool)
    requires forall rr :: !goes(rr)
    ensures Without(rrs, rrs, goes)
  {
    if rrs != [] {
      NothingGoes(rrs[1..], goes);
    }
  }

  /** Dropping records twice drops what either drops. */
  lemma {:induction false} WithoutTwice(a: seq<RR>, b: seq<RR>, c: seq<RR>, first: RR -> bool, second: RR -> bool, both: RR -> bool)
    requires Without(a, b, first) && Without(b, c, second) && forall rr :: both(rr) <==> first(rr) || second(rr)
    ensures Without(a, c, both)
    decreases |a|
  {
    if a != [] {
      if first(a[0]) {
        WithoutTwice(a[1..], b, c, first, second, both);
      } else if second(a[0]) {
        WithoutTwice(a[1..], b[1..], c, first, second, both);
      } else {
        WithoutTwice(a[1..], b[1..], c[1..], first, second, both);
      }
    }
  }

  lemma KeepMeans(q: Msg, rrs: seq<RR>)
    ensures Without(rrs, Keep(q, rrs), DropDnssec(q))
  {
    Cache.DnssecMeans(q);
    if Cache.WantsDnssec(q) {
      NothingGoes(rrs, DropDnssec(q));
    } else {
      FilterIsWithout(NotDnssec(), rrs, DropDnssec(q));
    }
  }

  lemma KeepExtraMeans(q: Msg, raw: Msg)
    ensures var extra := if Cache.FirstOpt(q.extra).None? then Filter(NotOpt(), raw.extra) else raw.extra;
            Without(raw.extra, Keep(q, extra), DropExtra(q))
  {
    var extra := if Cache.FirstOpt(q.extra).None? then Filter(NotOpt(), raw.extra) else raw.extra;
    Cache.FirstOptMeans(q.extra);
    if UsesEdns(q) {
      NothingGoes(raw.extra, DropEdns(q));
    } else {
      assert forall i :: 0 <= i < |q.extra| ==> q.extra[i] in q.extra;
      FilterIsWithout(NotOpt(), raw.extra, DropEdns(q));
    }
    KeepMeans(q, extra);
    WithoutTwice(raw.extra, extra, Keep(q, extra), DropEdns(q), DropDnssec(q), DropExtra(q));
  }

  /** A reply is passed on exactly if it can be trusted, and in that form. */
  lemma AcceptMeans(q: Msg, raw: Msg)
    ensures Accept(q, raw).Some? <==> Trusted(q, raw)
    ensures Accept(q, raw).Some? ==> PassedOn(q, raw, Accept(q, raw).value)
  {
    if Accept(q, raw).Some? {
      KeepMeans(q, raw.answer);
      KeepMeans(q, raw.ns);
      KeepExtraMeans(q, raw);
    }
  }

  // ---------- where a query ends ----------

  /** The name that is asked for is blocked for the client. */
  ghost predicate QuestionBlocked(env: Env, q: Msg) { |q.questions| == 1 && env.filter.Some? && env.filter.value(q.questions[0].name) }

  /** Some owner or alias target of an answer is. */
  ghost predicate AnswerBlocked(env: Env, answer: seq<RR>) {
    env.filter.Some? && exists i :: 0 <= i < |answer| && NamesBlocked(env.filter.value, answer[i])
  }

  predicate NamesBlocked(filter: Name -> bool, rr: RR) { filter(rr.owner) || (rr.data.Alias? && filter(rr.data.target)) }

  lemma AnswerBlockedMeans(env: Env, answer: seq<RR>)
    ensures AnswerBlocked(env, answer) <==> BlockedAnswerName(env, answer).Some?
  {
    if BlockedAnswerName(env, answer).Some? {
      var rr :| rr in answer && Offends(env, rr);
      var i :| 0 <= i < |answer| && answer[i] == rr;
    } else {
      assert forall i :: 0 <= i < |answer| ==> answer[i] in answer;
    }
  }

  /** A local answer that ends in an alias still to be resolved: the client wants
      recursion, does not ask for the alias itself, and nothing else is wrong. */
  ghost predicate LeadsOn(env: Env, q: Msg, target: Name) {
    && !QuestionBlocked(env, q) && LocalFor(env, q).Some?
    && var m := LocalFor(env, q).value.msg;
       && !AnswerBlocked(env, m.answer) && q.recursionDesired && |q.questions| == 1 && q.questions[0].qtype != TYPE_CNAME
       && m.rcode == SUCCESS && m.ns == [] && m.answer != [] && m.answer[|m.answer| - 1].data == Alias(target)
  }

  /** A query goes on to the target of its last local alias, and with nothing else changed. */
  lemma TailMeans(env: Env, q: Msg, depth: nat)
    ensures HasTail(env, q, depth) <==> depth < 16 && !env.cancelled && exists target :: LeadsOn(env, q, target)
    ensures HasTail(env, q, depth) ==>
              var next := TailOf(env, q, depth);
              |next.questions| == 1 && LeadsOn(env, q, next.questions[0].name) && next == q.(questions := [q.questions[0].(name := next.questions[0].name)])
  {
    if LocalFor(env, q).Some? {
      AnswerBlockedMeans(env, LocalFor(env, q).value.msg.answer);
    }
    if HasTail(env, q, depth) {
      assert LeadsOn(env, q, TailOf(env, q, depth).questions[0].name);
    }
  }

  /** The route of a query: the most specific forwarding rule around the name. */
  function Via(env: Env, q: Msg): Route {
    if |q.questions| == 1 then Closest(env.routes, Lower(q.questions[0].name)) else None
  }

  /** What upstream has to say, and what becomes of it. */
  ghost predicate ToldByUpstream(env: Env, c: Cache.State, q: Msg, now: int, run: Run) {
    var raw := env.reply(Via(env, q), q, now);
    && run.sent == Some(Sent(q, Via(env, q)))
    && if raw.None? || !Trusted(q, raw.value) then run.outcome == Failed(UpstreamSource, NoReply) && run.cache == c
       else exists m :: PassedOn(q, raw.value, m)
              && if AnswerBlocked(env, m.answer) then SaysBlocked(env, q, run.outcome) && run.cache == c
                 else && run.outcome == Done(Cache.Normalized(m, c.upstreamTtl), UpstreamSource, Via(env, q))
                      && run.cache == Cache.Put(c, q, run.outcome.message, env.wireLength(run.outcome.message), now)
  }

  /** What a query beyond the local layers is told: refusal, a cached answer, or upstream's. */
  ghost predicate ToldRemotely(env: Env, c: Cache.State, q: Msg, now: int, run: Run) {
    if !q.recursionDesired then SaysRefused(q, run.outcome) && run.cache == c && run.sent.None?
    else
      var (c', hit) := Cache.Get(c, q, now);
      if hit.None? then ToldByUpstream(env, c', q, now, run)
      else && run.cache == c' && run.sent.None?
           && if AnswerBlocked(env, hit.value.answer) then SaysBlocked(env, q, run.outcome)
              else run.outcome == Done(hit.value, CacheSource, None)
  }

  /** What a query without a tail is told. */
  ghost predicate Told(env: Env, c: Cache.State, q: Msg, now: int, depth: nat, run: Run) {
    if depth >= 16 then run.outcome == Failed(LocalSource, TooDeep) && run.cache == c && run.sent.None?
    else if env.cancelled then run.outcome == Failed(LocalSource, Cancelled) && run.cache == c && run.sent.None?
    else if QuestionBlocked(env, q) then SaysBlocked(env, q, run.outcome) && run.cache == c && run.sent.None?
    else if LocalFor(env, q).None? then ToldRemotely(env, c, q, now, run)
    else
      var m := LocalFor(env, q).value.msg;
      && run.cache == c && run.sent.None?
      && if AnswerBlocked(env, m.answer) then SaysBlocked(env, q, run.outcome) else run.outcome == Done(m, LocalSource, None)
  }

  lemma AskTold(env: Env, c: Cache.State, q: Msg, now: int)
    ensures ToldByUpstream(env, c, q, now, Ask(env, c, q, now, None))
  {
    var raw := env.reply(Via(env, q), q, now);
    if raw.Some? {
      AcceptMeans(q, raw.value);
      if Trusted(q, raw.value) {
        AnswerBlockedMeans(env, Accept(q, raw.value).value.answer);
        BlockedReplyMeans(env, q);
        assert PassedOn(q, raw.value, Accept(q, raw.value).value);
      }
    }
  }

  lemma RemoteTold(env: Env, c: Cache.State, q: Msg, now: int, depth: nat)
    ensures ToldRemotely(env, c, q, now, Remote(env, c, q, now, depth, None))
  {
    if q.recursionDesired {
      var (c', hit) := Cache.Get(c, q, now);
      if hit.Some? {
        AnswerBlockedMeans(env, hit.value.answer);
        BlockedReplyMeans(env, q);
      } else {
        AskTold(env, c', q, now);
      }
    }
  }

  lemma {:induction false} EndIsTold(env: Env, c: Cache.State, q: Msg, now: int, depth: nat)
    requires !HasTail(env, q, depth)
    ensures Told(env, c, q, now, depth, Resolve(env, c, q, now, depth, None))
  {
    NoTrace(env, q, depth);
    RemoteTold(env, c, q, now, depth);
    BlockedReplyMeans(env, q);
    if LocalFor(env, q).Some? {
      AnswerBlockedMeans(env, LocalFor(env, q).value.msg.answer);
    }
  }

  // ---------- how answers are joined ----------

  predicate SameHeader(a: Msg, b: Msg) {
    && a.id == b.id && a.opcode == b.opcode && a.response == b.response && a.authoritative == b.authoritative
    && a.truncated == b.truncated && a.recursionDesired == b.recursionDesired && a.recursionAvailable == b.recursionAvailable
    && a.authenticated == b.authenticated && a.checkingDisabled == b.checkingDisabled && a.questions == b.questions
  }

  /** The local answers of some queries, one after the other. */
  function LocalAnswers(env: Env, path: seq<Msg>): seq<RR> {
    if path == [] then []
    else (if LocalFor(env, path[0]).Some? then LocalFor(env, path[0]).value.msg.answer else []) + LocalAnswers(env, path[1..])
  }

  /** What the first query of a path is told, given what the last is told. A failure is
      passed on; a block becomes a block of the first question; else response code,
      authority and additional records and route are those of the end, and its answer
      follows the local ones. */
  ghost predicate Joined(env: Env, path: seq<Msg>, end: Outcome, out: Outcome)
    requires |path| > 1
  {
    match end
    case Failed(_, reason) => out == Failed(LocalSource, reason)
    case Done(m, source, upstream) =>
      if source == BlockedSource then SaysBlocked(env, path[0], out)
      else
        && out.Done? && out.source == LocalSource && out.upstream == upstream
        && out.message.rcode == m.rcode && out.message.ns == m.ns && out.message.extra == m.extra
        && out.message.answer == LocalAnswers(env, path[..|path| - 1]) + m.answer
        && LocalFor(env, path[0]).Some? && SameHeader(out.message, LocalFor(env, path[0]).value.msg)
  }

  ghost predicate Continued(env: Env, path: seq<Msg>, end: Outcome, out: Outcome) {
    path != [] && if |path| == 1 then out == end else Joined(env, path, end, out)
  }

  ghost function OutcomeOf(env: Env, c: Cache.State, now: int): (Msg, nat) -> Outcome {
    (q: Msg, depth: nat) => Resolve(env, c, q, now, depth, None).outcome
  }

  lemma {:induction false} StepJoins(env: Env, c: Cache.State, q: Msg, now: int, depth: nat)
    requires HasTail(env, q, depth)
    ensures var next := TailOf(env, q, depth);
            Joined(env, [q, next], OutcomeOf(env, c, now)(next, depth + 1), OutcomeOf(env, c, now)(q, depth))
  {
    NoTrace(env, q, depth);
    BlockedReplyMeans(env, q);
    var next := TailOf(env, q, depth);
    OneLocalAnswer(env, q, [q, next]);
  }

  lemma OneLocalAnswer(env: Env, q: Msg, path: seq<Msg>)
    requires |path| == 2 && path[0] == q && LocalFor(env, q).Some?
    ensures LocalAnswers(env, path[..1]) == LocalFor(env, q).value.msg.answer
  {
    assert path[..1] == [q] && [q][1..] == [];
    assert LocalAnswers(env, []) == [];
  }

  /** A step before a path that is already joined. */
  lemma JoinOneMore(env: Env, path: seq<Msg>, end: Outcome, mid: Outcome, out: Outcome)
    requires |path| > 1 && Continued(env, path[1..], end, mid) && Joined(env, path[..2], mid, out)
    ensures Joined(env, path, end, out)
  {
    if |path| > 2 {
      assert path[..2][..1] == path[..1] && path[..1][1..] == [] && path[..1][0] == path[0];
      assert LocalAnswers(env, []) == [];
      var front := path[..|path| - 1];
      assert front[1..] == path[1..][..|path| - 2] && front[0] == path[0];
    } else {
      assert path[..2] == path;
    }
  }

  lemma {:induction false} PathJoins(env: Env, f: (Msg, nat) -> Outcome, path: seq<Msg>, depth: nat)
    requires TailPath(env, path, depth)
    requires forall q, d: nat :: HasTail(env, q, d) ==> Joined(env, [q, TailOf(env, q, d)], f(TailOf(env, q, d), d + 1), f(q, d))
    ensures Continued(env, path, f(path[|path| - 1], depth + |path| - 1), f(path[0], depth))
    decreases |path|
  {
    if |path| > 1 {
      PathRest(env, path, depth);
      PathJoins(env, f, path[1..], depth + 1);
      assert path[..2] == [path[0], TailOf(env, path[0], depth)];
      JoinOneMore(env, path, f(path[|path| - 1], depth + |path| - 1), f(path[1], depth + 1), f(path[0], depth));
    }
  }

  lemma PathRest(env: Env, path: seq<Msg>, depth: nat)
    requires TailPath(env, path, depth) && |path| > 1
    ensures TailPath(env, path[1..], depth + 1) && Continues(env, path[0], depth, path[1])
  {
    var rest := path[1..];
    assert Continues(env, path[0], depth + 0, path[0 + 1]);
    forall i | 0 <= i < |rest| - 1
      ensures Continues(env, rest[i], depth + 1 + i, rest[i + 1])
    {
      assert Continues(env, path[i + 1], depth + (i + 1), path[i + 1 + 1]);
    }
  }

  lemma {:induction false} OutcomeJoins(env: Env, c: Cache.State, path: seq<Msg>, now: int)
    requires TailPath(env, path, 0)
    ensures Continued(env, path, OutcomeOf(env, c, now)(path[|path| - 1], |path| - 1), OutcomeOf(env, c, now)(path[0], 0))
  {
    var f := OutcomeOf(env, c, now);
    forall p, d: nat | HasTail(env, p, d) ensures Joined(env, [p, TailOf(env, p, d)], f(TailOf(env, p, d), d + 1), f(p, d)) {
      StepJoins(env, c, p, now, d);
    }
    PathJoins(env, f, path, 0);
  }

  /** What a query does besides being answered. */
  datatype Effect = Effect(cache: Cache.State, sent: Option<Sent>)

  ghost function EffectOf(env: Env, c: Cache.State, now: int): (Msg, nat) -> Effect {
    (q: Msg, depth: nat) => Effect(Resolve(env, c, q, now, depth, None).cache, Resolve(env, c, q, now, depth, None).sent)
  }

  lemma {:induction false} TailHasEffect(env: Env, c: Cache.State, q: Msg, now: int, depth: nat)
    requires HasTail(env, q, depth)
    ensures EffectOf(env, c, now)(q, depth) == EffectOf(env, c, now)(TailOf(env, q, depth), depth + 1)
  {
    NoTrace(env, q, depth);
  }

  lemma {:induction false} EffectOfEnd(env: Env, c: Cache.State, path: seq<Msg>, now: int)
    requires TailPath(env, path, 0)
    ensures EffectOf(env, c, now)(path[0], 0) == EffectOf(env, c, now)(path[|path| - 1], |path| - 1)
  {
    var f := EffectOf(env, c, now);
    forall p, d: nat | HasTail(env, p, d) ensures f(p, d) == f(TailOf(env, p, d), d + 1) {
      TailHasEffect(env, c, p, now, d);
    }
    AlongPath(env, f, path, 0, |path| - 1);
  }

  /** The meaning of a query: it runs through local aliases, each query the tail of the
      one before; the last is told what filter, local layers, cache and upstream say, and
      the first is told that behind its local answers. Only the last has effects. */
  ghost predicate Meaning(env: Env, c: Cache.State, q: Msg, now: int, run: Run) {
    exists path: seq<Msg>, end: Run :: TailPath(env, path, 0) && path[0] == q && Explained(env, c, path, now, end, run)
  }

  ghost predicate Explained(env: Env, c: Cache.State, path: seq<Msg>, now: int, end: Run, run: Run) {
    && path != [] && Told(env, c, path[|path| - 1], now, |path| - 1, end)
    && Continued(env, path, end.outcome, run.outcome) && run.cache == end.cache && run.sent == end.sent
  }

  /** Every query is told what it means. */
  lemma {:induction false} ResolveMeans(env: Env, c: Cache.State, q: Msg, now: int)
    ensures Meaning(env, c, q, now, Resolve(env, c, q, now, 0, None))
  {
    var path := FindPath(env, q, 0);
    OutcomeJoins(env, c, path, now);
    EffectOfEnd(env, c, path, now);
    var last, at := path[|path| - 1], |path| - 1;
    EndIsTold(env, c, last, now, at);
    assert Explained(env, c, path, now, Resolve(env, c, last, now, at, None), Resolve(env, c, q, now, 0, None));
  }

  // ---------- what a dry run records ----------

  /** The step for a filter decision on a name. */
  predicate SaysFilter(env: Env, s: Step, depth: nat, n: Name, blocked: bool) {
    && s.stage == FilterStage && s.depth == depth && s.route == None && s.ttl == 0
    && s.verdict == if blocked then Blocked else if env.allows(n) then Allowed else Passed
  }

  predicate SaysPlain(s: Step, stage: Stage, verdict: Verdict, depth: nat) { s == Step(stage, verdict, depth, None, 0) }

  /** The steps of the filter on the question: one if there is a filter. */
  ghost predicate QuestionRecorded(env: Env, q: Msg, depth: nat, steps: seq<Step>) {
    if |q.questions| == 1 && env.filter.Some?
    then |steps| == 1 && SaysFilter(env, steps[0], depth, q.questions[0].name, QuestionBlocked(env, q))
    else steps == []
  }

  /** The steps of the local layers: the layer that answered, or that neither did. */
  ghost predicate LocalRecorded(env: Env, q: Msg, depth: nat, steps: seq<Step>) {
    if env.local.None? then steps == []
    else if LocalFor(env, q).Some? then |steps| == 1 && SaysPlain(steps[0], LocalStage(LocalFor(env, q).value.layer), Answered, depth)
    else |steps| == 2 && SaysPlain(steps[0], LocalStage(RewriteLayer), NoMatch, depth) && SaysPlain(steps[1], LocalStage(ZoneLayer), NoMatch, depth)
  }

  /** What is recorded of filter and local layers at one depth: the question, then the local
      layers unless it was blocked, then a block of the local answer if there is one. */
  lemma PlanRecords(env: Env, q: Msg, depth: nat, t: seq<Step>) returns (asked: seq<Step>, found: seq<Step>, block: seq<Step>)
    ensures PlanFor(env, q, depth, Some(t)).trace == Some(t + asked + found + block)
    ensures QuestionRecorded(env, q, depth, asked)
    ensures if QuestionBlocked(env, q) then found == [] else LocalRecorded(env, q, depth, found)
    ensures if !QuestionBlocked(env, q) && LocalFor(env, q).Some? && AnswerBlocked(env, LocalFor(env, q).value.msg.answer)
            then |block| == 1 && SaysPlain(block[0], FilterStage, Blocked, depth) else block == []
  {
    var t1 := QuestionSteps(env, q, Some(t), depth).value;
    asked := t1[|t|..];
    found, block := [], [];
    if !QuestionBlocked(env, q) {
      var t2 := LocalSteps(env, Some(t1), depth, LocalFor(env, q)).value;
      found := t2[|t1|..];
      if LocalFor(env, q).Some? {
        AnswerBlockedMeans(env, LocalFor(env, q).value.msg.answer);
        if AnswerBlocked(env, LocalFor(env, q).value.msg.answer) {
          block := [Step(FilterStage, Blocked, depth, None, 0)];
        }
      }
      assert t2 == t1 + found;
    }
    assert t1 == t + asked;
    assert t + asked + found + [] == t + asked + found && t + asked + [] == t + asked;
  }

  /** What is recorded beyond: a refusal; a hit with the seconds it has left, and a block of
      the cached answer if there is one; or a miss and the route the query would take. */
  lemma RemoteRecords(env: Env, c: Cache.State, q: Msg, now: int, depth: nat, t: seq<Step>) returns (steps: seq<Step>)
    ensures Remote(env, c, q, now, depth, Some(t)).trace == Some(t + steps)
    ensures !q.recursionDesired ==> |steps| == 1 && SaysPlain(steps[0], RefuseStage, Refused, depth)
    ensures q.recursionDesired && Cache.Peek(c, q, now).Some? ==>
              var (m, left) := Cache.Peek(c, q, now).value;
              && |steps| == (if AnswerBlocked(env, m.answer) then 2 else 1) && steps[0] == Step(CacheStage, Hit, depth, None, left)
              && (AnswerBlocked(env, m.answer) ==> SaysPlain(steps[1], FilterStage, Blocked, depth))
    ensures q.recursionDesired && Cache.Peek(c, q, now).None? ==>
              |steps| == 2 && SaysPlain(steps[0], CacheStage, Miss, depth) && steps[1] == Step(ForwardStage, WouldForward, depth, Via(env, q), 0)
  {
    var peeked := Cache.Peek(c, q, now);
    if peeked.Some? {
      AnswerBlockedMeans(env, peeked.value.0.answer);
    }
    var after := Remote(env, c, q, now, depth, Some(t)).trace.value;
    steps := after[|t|..];
    assert after == t + steps;
  }
}
