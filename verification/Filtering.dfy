/** Domain filtering: rules compiled into one table, and the verdict read from it. */
module Filtering {
  import opened Dns

  datatype Action = Allow | Block

  /** A rule as configured: its domain may still carry a leading "*" label. */
  datatype Rule = Rule(domain: Name, wildcard: bool, action: Action)

  // ---------- domain names ----------

  predicate PlainChar(c: char) {
    'a' <= c <= 'z' || '0' <= c <= '9' || c == '-' || c == '_'
  }

  predicate PlainText(l: Label) { l == [] || (PlainChar(l[0]) && PlainText(l[1..])) }

  predicate PlainLabel(l: Label) {
    0 < |l| <= 63 && l[0] != '-' && l[|l| - 1] != '-' && PlainText(l)
  }

  predicate PlainLabels(n: Name) { n == [] || (PlainLabel(n[0]) && PlainLabels(n[1..])) }

  function TextLength(n: Name): nat {
    if n == [] then 0 else if |n| == 1 then |n[0]| else |n[0]| + 1 + TextLength(n[1..])
  }

  predicate Plain(n: Name) { n != [] && TextLength(n) <= 253 && PlainLabels(n) }

  function StripStar(n: Name): Name {
    if |n| >= 2 && n[0] == "*" then n[1..] else n
  }

  /** Lower case, without a leading "*" label, or nothing if that is no host name. */
  function NormalizeDomain(n: Name): Option<Name> {
    var v := StripStar(Lower(n));
    if Plain(v) then Some(v) else None
  }

  lemma {:induction false} PlainTextIsLower(l: Label)
    requires PlainText(l)
    ensures LowerLabel(l) == l
  {
    if l != [] {
      PlainTextIsLower(l[1..]);
      assert l == [l[0]] + l[1..] && LowerLabel(l) == [LowerChar(l[0])] + LowerLabel(l[1..]);
    }
  }

  lemma {:induction false} PlainLabelsAreLower(n: Name)
    requires PlainLabels(n)
    ensures Lower(n) == n
  {
    if n != [] {
      PlainTextIsLower(n[0]);
      PlainLabelsAreLower(n[1..]);
      assert n == [n[0]] + n[1..] && Lower(n) == [LowerLabel(n[0])] + Lower(n[1..]);
    }
  }

  lemma PlainIsLower(n: Name)
    requires Plain(n)
    ensures Lower(n) == n && StripStar(n) == n
  {
    PlainLabelsAreLower(n);
  }

  /** Normalising twice is normalising once. */
  lemma NormalizeDomainIdempotent(n: Name)
    requires NormalizeDomain(n).Some?
    ensures NormalizeDomain(NormalizeDomain(n).value) == NormalizeDomain(n)
  {
    PlainIsLower(NormalizeDomain(n).value);
  }

  // ---------- what rules mean ----------

  /** What a rule covers: one name, or a name with everything below it. */
  datatype Key = Key(wildcard: bool, domain: Name)

  /** A rule in normal form. */
  datatype Pattern = Pattern(key: Key, action: Action)

  function PatternOf(r: Rule): Option<Pattern> {
    var n := NormalizeDomain(r.domain);
    if n.None? then None
    else Some(Pattern(Key(r.wildcard || (|r.domain| >= 2 && r.domain[0] == "*"), n.value), r.action))
  }

  predicate Compilable(rules: seq<Rule>) {
    forall i :: 0 <= i < |rules| ==> PatternOf(rules[i]).Some?
  }

  function Patterns(rules: seq<Rule>): seq<Pattern>
    requires Compilable(rules)
  {
    seq(|rules|, i requires 0 <= i < |rules| => PatternOf(rules[i]).value)
  }

  lemma PatternsConcat(a: seq<Rule>, b: seq<Rule>)
    ensures Compilable(a + b) <==> Compilable(a) && Compilable(b)
    ensures Compilable(a + b) ==> Patterns(a + b) == Patterns(a) + Patterns(b)
  {
    assert forall i :: 0 <= i < |a| ==> (a + b)[i] == a[i];
    assert forall i :: 0 <= i < |b| ==> (a + b)[|a| + i] == b[i];
  }

  /** Whether a key speaks about a normalised name. */
  predicate Covers(k: Key, n: Name) {
    if k.wildcard then k.domain != [] && AtOrBelow(n, k.domain) else n == k.domain
  }

  ghost predicate Any(ps: seq<Pattern>, action: Action, n: Name) {
    exists p :: p in ps && p.action == action && Covers(p.key, n)
  }

  /** Any allowing rule wins; otherwise any blocking rule blocks. */
  ghost function Verdict(ps: seq<Pattern>, n: Name): Option<Action> {
    if Any(ps, Allow, n) then Some(Allow)
    else if Any(ps, Block, n) then Some(Block)
    else None
  }

  /** A rule is written with a leading "*" label. */
  predicate Starred(r: Rule) { |r.domain| >= 2 && r.domain[0] == "*" }

  /** What a configured rule covers: its own domain and, if it is marked as a wildcard or
      written as one, everything below; case and the "*" label do not matter. */
  predicate RuleCovers(r: Rule, n: Name) {
    var domain := Lower(if Starred(r) then r.domain[1..] else r.domain);
    n == domain || ((r.wildcard || Starred(r)) && AtOrBelow(n, domain))
  }

  lemma StarIsLower(n: Name)
    ensures StripStar(Lower(n)) == Lower(if |n| >= 2 && n[0] == "*" then n[1..] else n)
  {
    if |n| >= 2 {
      assert Lower(n)[0] == LowerLabel(n[0]);
      if Lower(n)[0] == "*" {
        assert |n[0]| == 1 && LowerChar(n[0][0]) == '*';
        assert n[0] == "*";
      }
      if n[0] == "*" {
        assert LowerLabel("*") == "*";
        assert Lower(n)[1..] == Lower(n[1..]);
      }
    }
  }

  lemma PatternMeans(r: Rule, n: Name)
    requires PatternOf(r).Some?
    ensures Covers(PatternOf(r).value.key, n) <==> RuleCovers(r, n)
    ensures PatternOf(r).value.action == r.action
  {
    StarIsLower(r.domain);
    var domain := PatternOf(r).value.key.domain;
    assert AtOrBelow(domain, domain);
  }

  lemma AnyMeans(rules: seq<Rule>, action: Action, n: Name)
    requires Compilable(rules)
    ensures Any(Patterns(rules), action, n) <==> exists i :: 0 <= i < |rules| && rules[i].action == action && RuleCovers(rules[i], n)
  {
    var ps := Patterns(rules);
    forall i | 0 <= i < |rules| ensures ps[i].action == rules[i].action && (Covers(ps[i].key, n) <==> RuleCovers(rules[i], n)) {
      PatternMeans(rules[i], n);
    }
    if Any(ps, action, n) {
      var p :| p in ps && p.action == action && Covers(p.key, n);
      var i :| 0 <= i < |ps| && ps[i] == p;
      assert rules[i].action == action && RuleCovers(rules[i], n);
    }
    if i :| 0 <= i < |rules| && rules[i].action == action && RuleCovers(rules[i], n) {
      assert ps[i] in ps;
    }
  }

  /** The verdict of configured rules: a name is allowed if some allowing rule covers it,
      and otherwise blocked if some blocking rule does. */
  lemma VerdictMeans(rules: seq<Rule>, n: Name)
    requires Compilable(rules)
    ensures var allowed := exists i :: 0 <= i < |rules| && rules[i].action == Allow && RuleCovers(rules[i], n);
            var blocked := exists i :: 0 <= i < |rules| && rules[i].action == Block && RuleCovers(rules[i], n);
            Verdict(Patterns(rules), n) == if allowed then Some(Allow) else if blocked then Some(Block) else None
  {
    AnyMeans(rules, Allow, n);
    AnyMeans(rules, Block, n);
  }

  lemma AnyOfUnion(a: seq<Pattern>, b: seq<Pattern>, action: Action, n: Name)
    ensures Any(a + b, action, n) <==> Any(a, action, n) || Any(b, action, n)
  {
    assert forall p :: p in a + b <==> p in a || p in b;
  }

  /** Rules put together decide together: nobody may allow and somebody must block. */
  lemma BlocksOfUnion(a: seq<Pattern>, b: seq<Pattern>, n: Name)
    ensures Verdict(a + b, n) == Some(Block)
       <==> && Verdict(a, n) != Some(Allow) && Verdict(b, n) != Some(Allow)
            && (Verdict(a, n) == Some(Block) || Verdict(b, n) == Some(Block))
    ensures Verdict(a + b, n) == Some(Allow) <==> Verdict(a, n) == Some(Allow) || Verdict(b, n) == Some(Allow)
  {
    AnyOfUnion(a, b, Allow, n);
    AnyOfUnion(a, b, Block, n);
  }

  // ---------- the compiled table ----------

  /** Exact and wildcard rules live under different keys. */
  type Table = map<Key, Action>

  ghost predicate Represents(t: Table, ps: seq<Pattern>) {
    && (forall p :: p in ps ==> p.key in t && (p.action == Allow ==> t[p.key] == Allow))
    && (forall k :: k in t ==> Pattern(k, t[k]) in ps)
  }

  function Add(t: Table, p: Pattern): Table {
    if p.key in t && t[p.key] == Allow then t else t[p.key := p.action]
  }

  lemma RepresentsOneMore(t: Table, ps: seq<Pattern>, p: Pattern)
    requires Represents(t, ps)
    ensures Represents(Add(t, p), ps + [p])
  {
    var t', ps' := Add(t, p), ps + [p];
    forall x | x in ps'
      ensures x.key in t' && (x.action == Allow ==> t'[x.key] == Allow)
    {
      if x in ps {
        assert x.key in t;
      }
    }
    forall k | k in t'
      ensures Pattern(k, t'[k]) in ps'
    {
      if k in t && t[k] == t'[k] {
        assert Pattern(k, t[k]) in ps;
      } else {
        assert k == p.key && Pattern(k, t'[k]) == p;
        assert ps'[|ps|] == p;
      }
    }
  }

  function TableOf(ps: seq<Pattern>): Table {
    if ps == [] then map[] else Add(TableOf(ps[..|ps| - 1]), ps[|ps| - 1])
  }

  lemma {:induction false} TableOfRepresents(ps: seq<Pattern>)
    ensures Represents(TableOf(ps), ps)
  {
    if ps != [] {
      var init, last := ps[..|ps| - 1], ps[|ps| - 1];
      assert ps == init + [last];
      TableOfRepresents(init);
      RepresentsOneMore(TableOf(init), init, last);
    }
  }

  /** The rules read so far and the table they give. */
  ghost predicate ReadTo(rules: seq<Rule>, i: nat, ps: seq<Pattern>, t: Table) {
    |ps| == i <= |rules| && t == TableOf(ps) && forall j :: 0 <= j < i ==> PatternOf(rules[j]) == Some(ps[j])
  }

  lemma {:induction false} ReadOneMore(rules: seq<Rule>, i: nat, ps: seq<Pattern>, t: Table, p: Pattern)
    requires i < |rules| && ReadTo(rules, i, ps, t) && PatternOf(rules[i]) == Some(p)
    ensures ReadTo(rules, i + 1, ps + [p], Add(t, p))
  {
    TableOfOneMore(ps, p);
    var more := ps + [p];
    assert forall j :: 0 <= j < i ==> more[j] == ps[j];
  }

  lemma {:induction false} TableOfOneMore(ps: seq<Pattern>, p: Pattern)
    ensures TableOf(ps + [p]) == Add(TableOf(ps), p)
  {
    assert (ps + [p])[..|ps|] == ps;
  }

  lemma AllRead(rules: seq<Rule>, ps: seq<Pattern>, t: Table)
    requires ReadTo(rules, |rules|, ps, t)
    ensures Compilable(rules) && Represents(t, Patterns(rules))
  {
    assert Compilable(rules);
    assert ps == Patterns(rules);
    TableOfRepresents(ps);
  }

  /** Compiles rules one by one; an allowing rule is never overwritten. */
  method New(rules: seq<Rule>) returns (t: Option<Table>)
    ensures t.Some? <==> Compilable(rules)
    ensures t.Some? ==> Represents(t.value, Patterns(rules))
  {
    var table: Table := map[];
    ghost var ps: seq<Pattern> := [];
    for i := 0 to |rules|
      invariant ReadTo(rules, i, ps, table)
    {
      var p := PatternOf(rules[i]);
      if p.None? {
        return None;
      }
      ReadOneMore(rules, i, ps, table, p.value);
      table := Add(table, p.value);
      ps := ps + [p.value];
    }
    AllRead(rules, ps, table);
    return Some(table);
  }

  ghost predicate Entry(t: Table, action: Action, n: Name) {
    exists k :: k in t && t[k] == action && Covers(k, n)
  }

  /** The verdict as the table gives it. */
  ghost function Decide(t: Table, n: Name): Option<Action> {
    if Entry(t, Allow, n) then Some(Allow) else if Entry(t, Block, n) then Some(Block) else None
  }

  /** Reads the verdict by walking from the name to its top-level label. */
  method Match(t: Table, domain: Name) returns (verdict: Option<Action>)
    ensures verdict == if NormalizeDomain(domain).None? then None else Decide(t, NormalizeDomain(domain).value)
  {
    var normal := NormalizeDomain(domain);
    if normal.None? {
      return None;
    }
    verdict := MatchNormal(t, normal.value);
  }

  method MatchNormal(t: Table, n: Name) returns (verdict: Option<Action>)
    requires n != []
    ensures verdict == Decide(t, n)
  {
    var blocked := false;
    if Key(false, n) in t {
      assert Covers(Key(false, n), n);
      if t[Key(false, n)] == Allow {
        return Some(Allow);
      }
      blocked := true;
    }
    var current := n;
    assert AtOrBelow(n, n);
    while true
      invariant current != [] && AtOrBelow(n, current)
      invariant forall k :: k in t && Covers(k, n) && (k.wildcard ==> |k.domain| > |current|) ==> t[k] == Block && blocked
      invariant blocked ==> Entry(t, Block, n)
      decreases |current|
    {
      if Key(true, current) in t {
        assert Covers(Key(true, current), n);
        if t[Key(true, current)] == Allow {
          return Some(Allow);
        }
        blocked := true;
      }
      SuffixOfLength(n, current);
      if |current| == 1 {
        break;
      }
      AtOrBelowTransitive(n, current, current[1..]);
      current := current[1..];
    }
    verdict := if blocked then Some(Block) else None;
  }

  lemma SuffixOfLength(n: Name, current: Name)
    requires AtOrBelow(n, current)
    ensures forall d :: AtOrBelow(n, d) && |d| == |current| ==> d == current
  {
  }

  lemma AllowAgrees(t: Table, ps: seq<Pattern>, n: Name)
    requires Represents(t, ps)
    ensures Entry(t, Allow, n) <==> Any(ps, Allow, n)
  {
    if Entry(t, Allow, n) {
      var k :| k in t && t[k] == Allow && Covers(k, n);
      assert Pattern(k, Allow) in ps;
    }
    if Any(ps, Allow, n) {
      var p :| p in ps && p.action == Allow && Covers(p.key, n);
      assert t[p.key] == Allow;
    }
  }

  lemma BlockAgrees(t: Table, ps: seq<Pattern>, n: Name)
    requires Represents(t, ps)
    ensures Entry(t, Block, n) ==> Any(ps, Block, n)
    ensures Any(ps, Block, n) ==> Entry(t, Block, n) || Entry(t, Allow, n)
  {
    if Entry(t, Block, n) {
      var k :| k in t && t[k] == Block && Covers(k, n);
      assert Pattern(k, Block) in ps;
    }
    if Any(ps, Block, n) {
      var p :| p in ps && p.action == Block && Covers(p.key, n);
      assert p.key in t;
    }
  }

  /** The table decides as the rules mean. */
  lemma TableMeansRules(t: Table, ps: seq<Pattern>, n: Name)
    requires Represents(t, ps)
    ensures Decide(t, n) == Verdict(ps, n)
  {
    AllowAgrees(t, ps, n);
    BlockAgrees(t, ps, n);
  }

  lemma VerdictOfPermutation(a: seq<Pattern>, b: seq<Pattern>, n: Name)
    requires multiset(a) == multiset(b)
    ensures Verdict(a, n) == Verdict(b, n)
  {
    forall p
      ensures p in a <==> p in b
    {
      assert p in a <==> p in multiset(a);
      assert p in b <==> p in multiset(b);
    }
  }

  /** The order in which rules are compiled never matters. */
  lemma OrderIsIrrelevant(a: seq<Pattern>, b: seq<Pattern>, ta: Table, tb: Table, n: Name)
    requires multiset(a) == multiset(b) && Represents(ta, a) && Represents(tb, b)
    ensures Decide(ta, n) == Decide(tb, n)
  {
    TableMeansRules(ta, a, n);
    TableMeansRules(tb, b, n);
    VerdictOfPermutation(a, b, n);
  }

  // ---------- sources ----------

  const MAX_SOURCES := 32
  const MAX_DOMAINS := 100000
  const MAX_TOTAL_DOMAINS := 250000

  datatype Source = Source(id: int, name: string, enabled: bool, domains: seq<Name>)

  function ListRules(domains: seq<Name>): seq<Rule> {
    seq(|domains|, i requires 0 <= i < |domains| => Rule(domains[i], true, Block))
  }

  /** The enabled sources, or the listed ones whether enabled or not. */
  predicate Selected(s: Source, ids: Option<seq<int>>) {
    if ids.None? then s.enabled else s.id in ids.value
  }

  function SourceRules(sources: seq<Source>, ids: Option<seq<int>>): seq<Rule> {
    if sources == [] then []
    else
      var n := |sources| - 1;
      SourceRules(sources[..n], ids) + (if Selected(sources[n], ids) then ListRules(sources[n].domains) else [])
  }

  function TotalDomains(sources: seq<Source>): nat {
    if sources == [] then 0 else TotalDomains(sources[..|sources| - 1]) + |sources[|sources| - 1].domains|
  }

  /** Lists are stored in normal form, with at most a leading "*" label. */
  predicate StoredForm(s: Source) {
    forall i :: 0 <= i < |s.domains| ==> NormalizeDomain(s.domains[i]) == Some(StripStar(s.domains[i]))
  }

  predicate SourceCovers(s: Source, n: Name) {
    exists i :: 0 <= i < |s.domains| && AtOrBelow(n, StripStar(s.domains[i]))
  }

  ghost predicate Listed(sources: seq<Source>, ids: Option<seq<int>>, n: Name) {
    exists s :: s in sources && Selected(s, ids) && SourceCovers(s, n)
  }

  lemma ListPattern(d: Name)
    requires NormalizeDomain(d) == Some(StripStar(d))
    ensures PatternOf(Rule(d, true, Block)) == Some(Pattern(Key(true, StripStar(d)), Block)) && StripStar(d) != []
  {
  }

  lemma ListPatterns(s: Source)
    requires StoredForm(s)
    ensures Compilable(ListRules(s.domains))
    ensures forall i :: 0 <= i < |s.domains| ==>
              Patterns(ListRules(s.domains))[i] == Pattern(Key(true, StripStar(s.domains[i])), Block) && StripStar(s.domains[i]) != []
  {
    forall i | 0 <= i < |s.domains|
      ensures PatternOf(ListRules(s.domains)[i]) == Some(Pattern(Key(true, StripStar(s.domains[i])), Block)) && StripStar(s.domains[i]) != []
    {
      ListPattern(s.domains[i]);
    }
  }

  lemma ListBlocks(domains: seq<Name>, ps: seq<Pattern>, n: Name)
    requires |ps| == |domains|
    requires forall i :: 0 <= i < |domains| ==> ps[i] == Pattern(Key(true, StripStar(domains[i])), Block) && StripStar(domains[i]) != []
    ensures Any(ps, Block, n) <==> exists i :: 0 <= i < |domains| && AtOrBelow(n, StripStar(domains[i]))
    ensures !Any(ps, Allow, n)
  {
    if i :| 0 <= i < |domains| && AtOrBelow(n, StripStar(domains[i])) {
      assert ps[i] in ps && Covers(ps[i].key, n);
    }
  }

  /** The lists block a name exactly when one of the selected lists contains it or a
      name above it, and they never allow. */
  lemma {:induction false} SourcesBlock(sources: seq<Source>, ids: Option<seq<int>>, n: Name)
    requires forall s :: s in sources ==> StoredForm(s)
    ensures Compilable(SourceRules(sources, ids))
    ensures Verdict(Patterns(SourceRules(sources, ids)), n) == if Listed(sources, ids, n) then Some(Block) else None
  {
    if sources != [] {
      var k := |sources| - 1;
      var s := sources[k];
      SourcesBlock(sources[..k], ids, n);
      assert forall x :: x in sources <==> x in sources[..k] || x == s;
      if Selected(s, ids) {
        ListPatterns(s);
        ListBlocks(s.domains, Patterns(ListRules(s.domains)), n);
        var a, b := SourceRules(sources[..k], ids), ListRules(s.domains);
        PatternsConcat(a, b);
        BlocksOfUnion(Patterns(a), Patterns(b), n);
      } else {
        assert SourceRules(sources, ids) == SourceRules(sources[..k], ids);
      }
    }
  }

  method AppendList(rules: seq<Rule>, domains: seq<Name>) returns (out: seq<Rule>)
    ensures out == rules + ListRules(domains)
  {
    out := rules;
    for i := 0 to |domains|
      invariant out == rules + ListRules(domains[..i])
    {
      out := out + [Rule(domains[i], true, Block)];
      assert ListRules(domains[..i + 1]) == ListRules(domains[..i]) + [Rule(domains[i], true, Block)];
    }
    assert domains[..|domains|] == domains;
  }

  predicate WithinLimits(sources: seq<Source>) {
    |sources| <= 32 && TotalDomains(sources) <= 250000 && forall s :: s in sources ==> |s.domains| <= 100000
  }

  /** The global filter: configuration rules and every enabled list. */
  method Compile(fixedRules: seq<Rule>, sources: seq<Source>) returns (t: Option<Table>)
    ensures t.Some? <==> WithinLimits(sources) && Compilable(fixedRules + SourceRules(sources, None))
    ensures t.Some? ==> Represents(t.value, Patterns(fixedRules + SourceRules(sources, None)))
  {
    if |sources| > MAX_SOURCES {
      return None;
    }
    var ok, rules := Gather(fixedRules, sources);
    if !ok {
      return None;
    }
    t := New(rules);
  }

  /** The rules of all enabled lists after the configured ones, within the limits. */
  method Gather(fixedRules: seq<Rule>, sources: seq<Source>) returns (ok: bool, rules: seq<Rule>)
    requires |sources| <= MAX_SOURCES
    ensures ok <==> WithinLimits(sources)
    ensures ok ==> rules == fixedRules + SourceRules(sources, None)
  {
    rules := fixedRules;
    var total := 0;
    for i := 0 to |sources|
      invariant total == TotalDomains(sources[..i]) <= MAX_TOTAL_DOMAINS
      invariant forall s :: s in sources[..i] ==> |s.domains| <= MAX_DOMAINS
      invariant rules == fixedRules + SourceRules(sources[..i], None)
    {
      var s := sources[i];
      GatherOneMore(fixedRules, sources, i);
      total := total + |s.domains|;
      if |s.domains| > MAX_DOMAINS || total > MAX_TOTAL_DOMAINS {
        TotalGrows(sources, i + 1);
        return false, rules;
      }
      if s.enabled {
        rules := AppendList(rules, s.domains);
      }
    }
    assert sources[..|sources|] == sources;
    ok := true;
  }

  lemma {:induction false} GatherOneMore(fixedRules: seq<Rule>, sources: seq<Source>, i: nat)
    requires i < |sources|
    ensures TotalDomains(sources[..i + 1]) == TotalDomains(sources[..i]) + |sources[i].domains|
    ensures fixedRules + SourceRules(sources[..i + 1], None)
         == fixedRules + SourceRules(sources[..i], None) + if sources[i].enabled then ListRules(sources[i].domains) else []
    ensures forall s :: s in sources[..i + 1] <==> s in sources[..i] || s == sources[i]
  {
    assert sources[..i + 1] == sources[..i] + [sources[i]] && sources[..i + 1][..i] == sources[..i];
  }

  lemma {:induction false} TotalGrows(sources: seq<Source>, i: nat)
    requires i <= |sources|
    ensures TotalDomains(sources[..i]) <= TotalDomains(sources)
    decreases |sources|
  {
    if i < |sources| {
      TotalGrows(sources[..|sources| - 1], i);
      assert sources[..|sources| - 1][..i] == sources[..i];
    } else {
      assert sources[..i] == sources;
    }
  }

  /** A client's own filter: configuration rules, its extra rules and the listed lists. */
  method Subset(fixedRules: seq<Rule>, sources: seq<Source>, ids: seq<int>, extra: seq<Rule>) returns (t: Option<Table>)
    ensures t.Some? <==> Compilable(fixedRules + extra + SourceRules(sources, Some(ids)))
    ensures t.Some? ==> Represents(t.value, Patterns(fixedRules + extra + SourceRules(sources, Some(ids))))
  {
    var rules := fixedRules + extra;
    for i := 0 to |sources|
      invariant rules == fixedRules + extra + SourceRules(sources[..i], Some(ids))
    {
      assert sources[..i + 1][..i] == sources[..i];
      if sources[i].id in ids {
        rules := AppendList(rules, sources[i].domains);
      }
    }
    assert sources[..|sources|] == sources;
    t := New(rules);
  }

  // ---------- attribution ----------

  datatype SourceRef = SourceRef(id: int, name: string)

  datatype Attribution = Attribution(fixedVerdict: Option<Action>, sources: seq<SourceRef>)

  /** Which configuration rules and lists cover a name; it reports, it does not decide. */
  method Attribute(fixedRules: seq<Rule>, sources: seq<Source>, domain: Name, ids: Option<seq<int>>) returns (out: Attribution)
    requires Compilable(fixedRules) && forall s :: s in sources ==> StoredForm(s)
    ensures NormalizeDomain(domain).None? ==> out == Attribution(None, [])
    ensures NormalizeDomain(domain).Some? ==>
              && out.fixedVerdict == Verdict(Patterns(fixedRules), NormalizeDomain(domain).value)
              && (out.sources != [] <==> Listed(sources, ids, NormalizeDomain(domain).value))
              && (forall ref :: ref in out.sources <==>
                    exists s :: s in sources && Covering(s, ids, NormalizeDomain(domain).value) && ref == SourceRef(s.id, s.name))
  {
    var normal := NormalizeDomain(domain);
    if normal.None? {
      return Attribution(None, []);
    }
    var n := normal.value;
    var fixedTable := New(fixedRules);
    var verdict := MatchNormal(fixedTable.value, n);
    TableMeansRules(fixedTable.value, Patterns(fixedRules), n);
    var covers := CoveringNames(n);
    var refs := CoveringSources(sources, ids, n, covers);
    return Attribution(verdict, refs);
  }

  /** `refs` names exactly the selected sources that cover the name. */
  ghost predicate Names(refs: seq<SourceRef>, sources: seq<Source>, ids: Option<seq<int>>, n: Name) {
    forall ref :: ref in refs <==> exists s :: s in sources && Covering(s, ids, n) && ref == SourceRef(s.id, s.name)
  }

  method CoveringSources(sources: seq<Source>, ids: Option<seq<int>>, n: Name, covers: set<Name>) returns (refs: seq<SourceRef>)
    requires forall d :: d in covers <==> d != [] && AtOrBelow(n, d)
    requires forall s :: s in sources ==> StoredForm(s)
    ensures refs != [] <==> Listed(sources, ids, n)
    ensures Names(refs, sources, ids, n)
  {
    refs := [];
    for i := 0 to |sources|
      invariant Names(refs, sources[..i], ids, n)
    {
      var s := sources[i];
      var found := false;
      if Selected(s, ids) {
        assert StoredForm(s);
        found := AnyCovers(s, n, covers);
      }
      NamesOneMore(refs, sources, ids, n, i);
      if found {
        refs := refs + [SourceRef(s.id, s.name)];
      }
    }
    assert sources[..|sources|] == sources;
    NamesAreListed(refs, sources, ids, n);
  }

  predicate Covering(s: Source, ids: Option<seq<int>>, n: Name) { Selected(s, ids) && SourceCovers(s, n) }

  lemma NamesOneMore(refs: seq<SourceRef>, sources: seq<Source>, ids: Option<seq<int>>, n: Name, i: nat)
    requires i < |sources| && Names(refs, sources[..i], ids, n)
    ensures Names(if Covering(sources[i], ids, n) then refs + [SourceRef(sources[i].id, sources[i].name)] else refs, sources[..i + 1], ids, n)
  {
    var s := sources[i];
    assert forall x :: x in sources[..i + 1] <==> x in sources[..i] || x == s;
  }

  lemma NamesAreListed(refs: seq<SourceRef>, sources: seq<Source>, ids: Option<seq<int>>, n: Name)
    requires Names(refs, sources, ids, n)
    ensures refs != [] <==> Listed(sources, ids, n)
  {
    if refs != [] {
      assert refs[0] in refs;
    }
    if Listed(sources, ids, n) {
      var s :| s in sources && Covering(s, ids, n);
      assert SourceRef(s.id, s.name) in refs;
    }
  }

  method AnyCovers(s: Source, n: Name, covers: set<Name>) returns (found: bool)
    requires forall d :: d in covers <==> d != [] && AtOrBelow(n, d)
    requires forall i :: 0 <= i < |s.domains| ==> StripStar(s.domains[i]) != []
    ensures found <==> SourceCovers(s, n)
  {
    for j := 0 to |s.domains|
      invariant forall i :: 0 <= i < j ==> !AtOrBelow(n, StripStar(s.domains[i]))
    {
      if StripStar(s.domains[j]) in covers {
        return true;
      }
    }
    return false;
  }

  method CoveringNames(n: Name) returns (covers: set<Name>)
    requires n != []
    ensures forall d :: d in covers <==> d != [] && AtOrBelow(n, d)
  {
    covers := {};
    var current := n;
    assert AtOrBelow(n, n);
    while true
      invariant current != [] && AtOrBelow(n, current)
      invariant forall d :: d in covers <==> AtOrBelow(n, d) && |d| > |current|
      decreases |current|
    {
      covers := covers + {current};
      SuffixOfLength(n, current);
      if |current| == 1 {
        break;
      }
      AtOrBelowTransitive(n, current, current[1..]);
      current := current[1..];
    }
  }
}
