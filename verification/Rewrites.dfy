/** Fixed answers for selected names: exact rules first, then the closest wildcard. */
module Rewrites {
  import opened Dns
  import opened AnswerChain

  const ANSWER_TTL: U32 := 300

  datatype Value = Ipv4(text: string) | Ipv6(text: string) | Cname(target: Name)

  /** A wildcard rule covers every name below its own, but not that name itself. */
  datatype Rule = Rule(id: int, wildcard: bool, name: Name, value: Value, enabled: bool)

  datatype Table = Table(exact: map<Name, seq<Rule>>, wildcard: map<Name, seq<Rule>>)

  // ---------- the lookup table ----------

  function Active(wildcard: bool, n: Name): Rule -> bool {
    (r: Rule) => r.enabled && r.wildcard == wildcard && r.name == n
  }

  /** The enabled rules for exactly this name or wildcard, in their order. */
  function RulesAt(rules: seq<Rule>, wildcard: bool, n: Name): seq<Rule> {
    Filter(Active(wildcard, n), rules)
  }

  function At(m: map<Name, seq<Rule>>, n: Name): seq<Rule> {
    if n in m then m[n] else []
  }

  ghost predicate Represents(t: Table, rules: seq<Rule>) {
    && (forall n :: At(t.exact, n) == RulesAt(rules, false, n))
    && (forall n :: At(t.wildcard, n) == RulesAt(rules, true, n))
    && (forall n :: n in t.exact ==> t.exact[n] != [])
    && (forall n :: n in t.wildcard ==> t.wildcard[n] != [])
  }

  function Add(m: map<Name, seq<Rule>>, r: Rule): map<Name, seq<Rule>> {
    m[r.name := At(m, r.name) + [r]]
  }

  lemma RulesAtOneMore(rules: seq<Rule>, r: Rule, wildcard: bool, n: Name)
    ensures RulesAt(rules + [r], wildcard, n) == RulesAt(rules, wildcard, n) + (if Active(wildcard, n)(r) then [r] else [])
  {
    FilterConcat(Active(wildcard, n), rules, [r]);
    assert Filter(Active(wildcard, n), [r]) == if Active(wildcard, n)(r) then [r] else [];
  }

  lemma RepresentsOneMore(t: Table, rules: seq<Rule>, r: Rule)
    requires Represents(t, rules)
    ensures Represents(if !r.enabled then t
                       else if r.wildcard then t.(wildcard := Add(t.wildcard, r))
                       else t.(exact := Add(t.exact, r)), rules + [r])
  {
    forall n
      ensures RulesAt(rules + [r], false, n) == RulesAt(rules, false, n) + (if Active(false, n)(r) then [r] else [])
      ensures RulesAt(rules + [r], true, n) == RulesAt(rules, true, n) + (if Active(true, n)(r) then [r] else [])
    {
      RulesAtOneMore(rules, r, false, n);
      RulesAtOneMore(rules, r, true, n);
    }
  }

  method Compile(rules: seq<Rule>) returns (t: Table)
    ensures Represents(t, rules)
  {
    t := Table(map[], map[]);
    for i := 0 to |rules|
      invariant Represents(t, rules[..i])
    {
      var r := rules[i];
      RepresentsOneMore(t, rules[..i], r);
      assert rules[..i + 1] == rules[..i] + [r];
      if !r.enabled {
        continue;
      }
      if r.wildcard {
        t := t.(wildcard := Add(t.wildcard, r));
      } else {
        t := t.(exact := Add(t.exact, r));
      }
    }
    assert rules[..|rules|] == rules;
  }

  // ---------- matching ----------

  /** The rules of the closest wildcard strictly above a name. */
  function WildcardRules(rules: seq<Rule>, n: Name): seq<Rule> {
    if |n| < 2 then []
    else if RulesAt(rules, true, n[1..]) != [] then RulesAt(rules, true, n[1..])
    else WildcardRules(rules, n[1..])
  }

  function Matching(rules: seq<Rule>, n: Name): seq<Rule> {
    if RulesAt(rules, false, n) != [] then RulesAt(rules, false, n) else WildcardRules(rules, n)
  }

  method Match(t: Table, ghost rules: seq<Rule>, n: Name) returns (out: seq<Rule>)
    requires Represents(t, rules)
    ensures out == Matching(rules, n)
  {
    assert At(t.exact, n) == RulesAt(rules, false, n);
    if n in t.exact {
      return t.exact[n];
    }
    var parent := n;
    while true
      invariant WildcardRules(rules, n) == WildcardRules(rules, parent)
      decreases |parent|
    {
      if |parent| < 2 {
        return [];
      }
      var next := parent[1..];
      assert At(t.wildcard, next) == RulesAt(rules, true, next);
      if next in t.wildcard {
        return t.wildcard[next];
      }
      parent := next;
    }
  }

  predicate StrictlyBelow(n: Name, top: Name) { AtOrBelow(n, top) && n != top }

  /** Which rules answer, said without the walk: an exact rule beats every wildcard,
      and of the wildcards above the name the longest wins. */
  lemma MatchMeans(rules: seq<Rule>, n: Name, r: Rule)
    requires forall x :: x in rules ==> x.name != []
    ensures r in Matching(rules, n) <==>
            && r in rules && r.enabled
            && if exists x :: x in rules && x.enabled && !x.wildcard && x.name == n then !r.wildcard && r.name == n
               else && r.wildcard && StrictlyBelow(n, r.name)
                    && forall x :: x in rules && x.enabled && x.wildcard && StrictlyBelow(n, x.name) ==> |x.name| <= |r.name|
  {
    FilterMembers(Active(false, n), rules);
    WildcardMeans(rules, n, r);
    if exists x :: x in rules && x.enabled && !x.wildcard && x.name == n {
      var x :| x in rules && x.enabled && !x.wildcard && x.name == n;
      assert x in RulesAt(rules, false, n);
    } else if RulesAt(rules, false, n) != [] {
      var x := RulesAt(rules, false, n)[0];
      assert x in RulesAt(rules, false, n);
    }
  }

  lemma {:induction false} WildcardMeans(rules: seq<Rule>, n: Name, r: Rule)
    requires forall x :: x in rules ==> x.name != []
    ensures r in WildcardRules(rules, n) <==>
            && r in rules && r.enabled && r.wildcard && StrictlyBelow(n, r.name)
            && forall x :: x in rules && x.enabled && x.wildcard && StrictlyBelow(n, x.name) ==> |x.name| <= |r.name|
  {
    if |n| >= 2 {
      var next := n[1..];
      var here := RulesAt(rules, true, next);
      FilterMembers(Active(true, next), rules);
      forall x | x in rules
        ensures StrictlyBelow(n, x.name) <==> x.name == next || StrictlyBelow(next, x.name)
      {
      }
      if here != [] {
        assert here[0] in here;
        assert AtOrBelow(next, next);
      } else {
        WildcardMeans(rules, next, r);
      }
    }
  }

  // ---------- answering ----------

  function IsCname(): Rule -> bool { (r: Rule) => r.value.Cname? }

  function Header(q: Question, data: RData): RR { RR(q.name, ANSWER_TTL, data) }

  function AddressRecords(rules: seq<Rule>, q: Question): seq<RR> {
    if rules == [] then []
    else
      var n := |rules| - 1;
      AddressRecords(rules[..n], q)
      + (match rules[n].value
         case Ipv4(text) => if q.qtype == TYPE_A then [Header(q, Raw(TYPE_A, Content([text], 0)))] else []
         case Ipv6(text) => if q.qtype == TYPE_AAAA then [Header(q, Raw(TYPE_AAAA, Content([text], 0)))] else []
         case Cname(_) => [])
  }

  /** An alias stands alone; otherwise the addresses of the asked type, possibly none. */
  function Records(rules: seq<Rule>, q: Question): seq<RR> {
    var aliases := Filter(IsCname(), rules);
    if aliases != [] && aliases[0].value.Cname? then [Header(q, Alias(aliases[0].value.target))]
    else AddressRecords(rules, q)
  }

  /** The answer the enabled rules give to a query, if any covers its name. */
  function Rewrite(rules: seq<Rule>, q: Msg): Option<(Msg, seq<Rule>)> {
    if |q.questions| != 1 || q.questions[0].qclass != CLASS_INET then None
    else
      var matching := Matching(rules, Lower(q.questions[0].name));
      if matching == [] then None
      else Some((Reply(q, SUCCESS).(recursionAvailable := true, answer := Records(matching, q.questions[0])), matching))
  }

  method BuildRecords(rules: seq<Rule>, q: Question) returns (out: seq<RR>)
    ensures out == Records(rules, q)
  {
    out := [];
    FilterMembers(IsCname(), rules);
    for i := 0 to |rules|
      invariant Filter(IsCname(), rules[..i]) == []
      invariant out == AddressRecords(rules[..i], q)
    {
      FilterSplit(IsCname(), rules, i);
      assert rules[..i + 1][..i] == rules[..i];
      match rules[i].value {
        case Cname(target) =>
          return [Header(q, Alias(target))];
        case Ipv4(text) =>
          if q.qtype == TYPE_A {
            out := out + [Header(q, Raw(TYPE_A, Content([text], 0)))];
          }
        case Ipv6(text) =>
          if q.qtype == TYPE_AAAA {
            out := out + [Header(q, Raw(TYPE_AAAA, Content([text], 0)))];
          }
      }
    }
    assert rules[..|rules|] == rules;
  }

  method Answer(t: Table, ghost rules: seq<Rule>, q: Msg) returns (out: Option<(Msg, seq<Rule>)>)
    requires Represents(t, rules)
    ensures out == Rewrite(rules, q)
  {
    if |q.questions| != 1 || q.questions[0].qclass != CLASS_INET {
      return None;
    }
    var matching := Match(t, rules, Lower(q.questions[0].name));
    if |matching| == 0 {
      return None;
    }
    var records := BuildRecords(matching, q.questions[0]);
    return Some((Reply(q, SUCCESS).(recursionAvailable := true, answer := records), matching));
  }

  lemma {:induction false} AddressesBelongToQuestion(rules: seq<Rule>, q: Question)
    ensures DataOf(Lower(q.name), AddressRecords(rules, q))
    ensures forall rr :: rr in AddressRecords(rules, q) ==> !rr.data.Alias?
  {
    if rules != [] {
      AddressesBelongToQuestion(rules[..|rules| - 1], q);
    }
  }

  /** A rewritten answer is a chain from the question, and if it ends in an alias it is
      nothing but aliases. */
  lemma RewriteIsChain(rules: seq<Rule>, q: Msg)
    requires Rewrite(rules, q).Some?
    ensures var m := Rewrite(rules, q).value.0;
            m.ns == [] && m.questions == [q.questions[0]] && ChainAnswer(q.questions[0], m.answer)
  {
    var question := q.questions[0];
    var m, matching := Rewrite(rules, q).value.0, Rewrite(rules, q).value.1;
    AddressesBelongToQuestion(matching, question);
    DataIsChain(Lower(question.name), AddressRecords(matching, question));
    if m.answer != AddressRecords(matching, question) {
      assert m.answer[1..] == [];
    }
  }

  // ---------- what a rewrite says ----------

  predicate Addresses(q: Question, r: Rule) { (q.qtype == TYPE_A && r.value.Ipv4?) || (q.qtype == TYPE_AAAA && r.value.Ipv6?) }

  function OfAsked(q: Question): Rule -> bool { (r: Rule) => Addresses(q, r) }

  /** An address record of the asked type for the asked name, kept for five minutes. */
  predicate Gives(q: Question, r: Rule, rr: RR) {
    && rr.owner == q.name && rr.ttl == 300 && Addresses(q, r)
    && rr.data == Raw(q.qtype, Content([r.value.text], 0))
  }

  lemma {:induction false} AddressesMean(rules: seq<Rule>, q: Question)
    ensures var chosen, out := Filter(OfAsked(q), rules), AddressRecords(rules, q);
            |out| == |chosen| && forall i :: 0 <= i < |out| ==> Gives(q, chosen[i], out[i])
  {
    if rules != [] {
      var n := |rules| - 1;
      AddressesMean(rules[..n], q);
      FilterSplit(OfAsked(q), rules, n);
      assert rules[..n + 1] == rules && Filter(OfAsked(q), rules[n + 1..]) == [];
    }
  }

  lemma {:induction false} FirstCname(rules: seq<Rule>, k: nat)
    requires k < |rules| && rules[k].value.Cname? && forall i :: 0 <= i < k ==> !rules[i].value.Cname?
    ensures Filter(IsCname(), rules) != [] && Filter(IsCname(), rules)[0] == rules[k]
  {
    if k > 0 {
      FirstCname(rules[1..], k - 1);
    }
  }

  /** What the rewrites reply: nothing unless a rule matches; the alias of the first
      matching alias rule alone; or the addresses of the asked type, in order. */
  lemma RewriteMeans(rules: seq<Rule>, q: Msg)
    ensures Rewrite(rules, q).None? <==> |q.questions| != 1 || q.questions[0].qclass != 1 || Matching(rules, Lower(q.questions[0].name)) == []
    ensures Rewrite(rules, q).Some? ==>
              var (m, matching), question := Rewrite(rules, q).value, q.questions[0];
              && matching == Matching(rules, Lower(question.name))
              && m.id == q.id && m.response && m.recursionAvailable && !m.authoritative && m.rcode == SUCCESS
              && m.questions == [question] && m.ns == [] && m.extra == []
              && (forall k: nat :: k < |matching| && matching[k].value.Cname? && (forall i :: 0 <= i < k ==> !matching[i].value.Cname?) ==>
                    m.answer == [RR(question.name, 300, Alias(matching[k].value.target))])
              && ((forall i :: 0 <= i < |matching| ==> !matching[i].value.Cname?) ==>
                    var chosen := Filter(OfAsked(question), matching);
                    |m.answer| == |chosen| && forall i :: 0 <= i < |chosen| ==> Gives(question, chosen[i], m.answer[i]))
  {
    if Rewrite(rules, q).Some? {
      var matching, question := Rewrite(rules, q).value.1, q.questions[0];
      AddressesMean(matching, question);
      FilterMembers(IsCname(), matching);
      forall k: nat | k < |matching| && matching[k].value.Cname? && (forall i :: 0 <= i < k ==> !matching[i].value.Cname?)
        ensures Rewrite(rules, q).value.0.answer == [RR(question.name, 300, Alias(matching[k].value.target))]
      {
        FirstCname(matching, k);
      }
      if forall i :: 0 <= i < |matching| ==> !matching[i].value.Cname? {
        NoCname(matching);
      }
    }
  }

  lemma {:induction false} NoCname(rules: seq<Rule>)
    requires forall i :: 0 <= i < |rules| ==> !rules[i].value.Cname?
    ensures Filter(IsCname(), rules) == []
  {
    if rules != [] {
      NoCname(rules[1..]);
    }
  }
}
