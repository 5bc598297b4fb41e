/** The resolver working on the live cache, proved equal to the decision function. */
module ResolverImpl {
  import opened Dns
  import opened AnswerChain
  import opened Resolver
  import ResolverMeaning
  import CacheSpec
  import CacheImpl

  method FirstBlocked(env: Env, answer: seq<RR>) returns (n: Option<Name>)
    ensures n == BlockedAnswerName(env, answer)
  {
    for i := 0 to |answer|
      invariant BlockedAnswerName(env, answer) == BlockedAnswerName(env, answer[i..])
    {
      if BlockedName(env, answer[i].owner) {
        return Some(answer[i].owner);
      }
      if answer[i].data.Alias? && BlockedName(env, answer[i].data.target) {
        return Some(answer[i].data.target);
      }
    }
    return None;
  }

  method AcceptReply(q: Msg, raw: Msg) returns (m: Option<Msg>)
    ensures m == Accept(q, raw)
  {
    if !raw.response || !SameQuestion(q, raw) {
      return None;
    }
    var ok := ValidateAnswerChain(q, raw.answer);
    if !ok || raw.rcode == SERVER_FAILURE || raw.rcode == REFUSED {
      return None;
    }
    var extra := if CacheSpec.FirstOpt(q.extra).None? then Filter(NotOpt(), raw.extra) else raw.extra;
    return Some(raw.(id := q.id, questions := q.questions, authenticated := raw.authenticated && !q.checkingDisabled,
                     answer := Keep(q, raw.answer), ns := Keep(q, raw.ns), extra := Keep(q, extra)));
  }

  class Server {
    const cache: CacheImpl.Cache

    constructor (cache: CacheImpl.Cache)
      ensures this.cache == cache
    {
      this.cache := cache;
    }

    /** Asks upstream, and stores what may be served again. */
    method AskUpstream(env: Env, q: Msg, now: int) returns (outcome: Outcome, sent: Option<Sent>)
      requires cache.Consistent()
      modifies cache
      ensures cache.Consistent()
      ensures Run(outcome, cache.Contents(), None, sent) == Ask(env, old(cache.Contents()), q, now, None)
    {
      var route := RouteFor(env, q);
      sent := Some(Sent(q, route));
      var raw := env.reply(route, q, now);
      if raw.None? {
        return Failed(UpstreamSource, NoReply), sent;
      }
      var fetched := AcceptReply(q, raw.value);
      if fetched.None? {
        return Failed(UpstreamSource, NoReply), sent;
      }
      var bad := FirstBlocked(env, fetched.value.answer);
      if bad.Some? {
        return BlockedReply(env, q), sent;
      }
      var m := CacheImpl.NormalizeNegativeTtl(fetched.value);
      m := cache.NormalizeUpstreamTtl(m);
      NormalizedKeepsAnswer(fetched.value, cache.upstreamTtl);
      cache.Put(q, m, env.wireLength(m), now);
      return Done(m, UpstreamSource, route), sent;
    }

    method ReadRemote(env: Env, q: Msg, now: int, depth: nat, t: Trace) returns (outcome: Outcome, t': Trace, sent: Option<Sent>)
      requires cache.Consistent()
      modifies cache
      ensures cache.Consistent()
      ensures Run(outcome, cache.Contents(), t', sent) == Remote(env, old(cache.Contents()), q, now, depth, t)
    {
      t', sent := t, None;
      if !q.recursionDesired {
        t' := Add(t, Step(RefuseStage, Refused, depth, None, 0));
        return Done(Reply(q, REFUSED).(recursionAvailable := true), RefusedSource, None), t', None;
      }
      if t.Some? {
        var peeked := cache.Peek(q, now);
        if peeked.None? {
          t' := Add(t, Step(CacheStage, Miss, depth, None, 0));
          t' := Add(t', Step(ForwardStage, WouldForward, depth, RouteFor(env, q), 0));
          return Done(Reply(q, SUCCESS), UpstreamSource, None), t', None;
        }
        t' := Add(t, Step(CacheStage, Hit, depth, None, peeked.value.1));
        var bad := FirstBlocked(env, peeked.value.0.answer);
        if bad.Some? {
          t' := FilterStep(env, t', depth, bad.value, true);
          return BlockedReply(env, q), t', None;
        }
        return Done(peeked.value.0, CacheSource, None), t', None;
      }
      var m := cache.Get(q, now);
      if m.Some? {
        var bad := FirstBlocked(env, m.value.answer);
        outcome := if bad.Some? then BlockedReply(env, q) else Done(m.value, CacheSource, None);
        return;
      }
      outcome, sent := AskUpstream(env, q, now);
    }

    /** Resolves a query; with a trace it only explains what it would do. */
    method Resolve(env: Env, q: Msg, now: int, depth: nat, t: Trace) returns (outcome: Outcome, t': Trace, sent: Option<Sent>)
      requires cache.Consistent()
      modifies cache
      ensures cache.Consistent()
      ensures Run(outcome, cache.Contents(), t', sent) == Resolver.Resolve(env, old(cache.Contents()), q, now, depth, t)
      decreases MAX_DEPTH - depth
    {
      if depth >= MAX_DEPTH {
        return Failed(LocalSource, TooDeep), t, None;
      }
      if env.cancelled {
        return Failed(LocalSource, Cancelled), t, None;
      }
      var plan := MakePlan(env, q, depth, t);
      match plan {
        case Stop(stopped, trace) => return stopped, trace, None;
        case Onward(trace) => outcome, t', sent := ReadRemote(env, q, now, depth, trace);
        case Tail(m, target, trace) =>
          outcome, t', sent := Resolve(env, target, now, depth + 1, trace);
          outcome := Stitch(env, q, m, outcome);
      }
    }

    method MakePlan(env: Env, q: Msg, depth: nat, t: Trace) returns (plan: Plan)
      ensures plan == PlanFor(env, q, depth, t)
    {
      var t' := t;
      if |q.questions| == 1 {
        var name := q.questions[0].name;
        var blocked := BlockedName(env, name);
        if env.filter.Some? {
          t' := FilterStep(env, t', depth, name, blocked);
        }
        if blocked {
          return Stop(BlockedReply(env, q), t');
        }
      }
      if env.local.None? {
        return Onward(t');
      }
      var found := env.local.value(q);
      if found.None? {
        t' := Add(t', Step(LocalStage(RewriteLayer), NoMatch, depth, None, 0));
        t' := Add(t', Step(LocalStage(ZoneLayer), NoMatch, depth, None, 0));
        return Onward(t');
      }
      t' := Add(t', Step(LocalStage(found.value.layer), Answered, depth, None, 0));
      var m := found.value.msg;
      var bad := FirstBlocked(env, m.answer);
      if bad.Some? {
        t' := FilterStep(env, t', depth, bad.value, true);
        return Stop(BlockedReply(env, q), t');
      }
      if NeedsTail(q, m) {
        return Tail(m, TailQuery(q, m), t');
      }
      return Stop(Done(m, LocalSource, None), t');
    }

    /** Answers a query from the start: the client is told what the query means. */
    method Query(env: Env, q: Msg, now: int) returns (outcome: Outcome)
      requires cache.Consistent()
      modifies cache
      ensures cache.Consistent()
      ensures exists sent :: ResolverMeaning.Meaning(env, old(cache.Contents()), q, now, Run(outcome, cache.Contents(), None, sent))
    {
      ResolverMeaning.ResolveMeans(env, cache.Contents(), q, now);
      NoTraceAfter(env, cache.Contents(), q, now, 0);
      var t, sent;
      outcome, t, sent := Resolve(env, q, now, 0, None);
      assert ResolverMeaning.Meaning(env, old(cache.Contents()), q, now, Run(outcome, cache.Contents(), None, sent));
    }

    /** A dry run from the start leaves contents, order and counters of the cache alone,
        and reports the step that decided. */
    method Explain(env: Env, q: Msg, now: int) returns (outcome: Outcome, steps: seq<Step>, winner: Option<Step>)
      requires cache.Consistent()
      modifies cache
      ensures cache.Consistent() && cache.Contents() == old(cache.Contents())
      ensures Agree(Run(outcome, cache.Contents(), Some(steps), None), 0, Resolver.Resolve(env, old(cache.Contents()), q, now, 0, None))
      ensures outcome.Done? ==> winner.Some? && winner.value in steps && winner.value.verdict == Explains(outcome.source)
    {
      DryRunTellsTruth(env, cache.Contents(), q, now, 0, 0, []);
      DryRunIsExplained(env, cache.Contents(), q, now, 0, 0, []);
      ghost var before := cache.Contents();
      var t, sent;
      outcome, t, sent := Resolve(env, q, now, 0, Some([]));
      steps := t.value;
      winner := None;
      if outcome.Done? {
        winner := Winner(steps, outcome.source);
        if winner.Some? {
          ghost var i: nat :| Wins(steps, outcome.source, i) && steps[i] == winner.value;
          WinnerExplains(env, before, q, now, Resolver.Resolve(env, before, q, now, 0, Some([])), steps, i);
        }
      }
    }
  }
}
