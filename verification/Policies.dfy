/** Per-client filtering and the explanation of its decisions. */
module Policies {
  import opened Dns
  import opened Sorting
  import opened Input
  import Filtering

  type Table = Filtering.Table

  datatype Mode = Default | Disabled | Custom

  datatype Policy = Policy(id: int, clientId: int, mode: Mode, blocklists: seq<int>, allow: seq<Name>, block: seq<Name>, enabled: bool)

  /** The filtering configuration everything is compiled from. */
  datatype Config = Config(fixedRules: seq<Filtering.Rule>, sources: seq<Filtering.Source>, policies: seq<Policy>)

  /** A client maps to its own table, or to none if filtering is off for it; a client
      without an entry uses the global table. */
  type Compiled = map<int, Option<Table>>

  function RulesFor(domains: seq<Name>, action: Filtering.Action): seq<Filtering.Rule> {
    seq(|domains|, i requires 0 <= i < |domains| => Filtering.Rule(domains[i], true, action))
  }

  function ExtraRules(p: Policy): seq<Filtering.Rule> {
    RulesFor(p.block, Filtering.Block) + RulesFor(p.allow, Filtering.Allow)
  }

  function CustomRules(c: Config, p: Policy): seq<Filtering.Rule> {
    c.fixedRules + ExtraRules(p) + Filtering.SourceRules(c.sources, Some(p.blocklists))
  }

  function GlobalRules(c: Config): seq<Filtering.Rule> {
    c.fixedRules + Filtering.SourceRules(c.sources, None)
  }

  /** What the services guarantee about stored data. */
  ghost predicate Sound(c: Config) {
    && Filtering.Compilable(c.fixedRules)
    && (forall s :: s in c.sources ==> Filtering.StoredForm(s))
    && (forall p :: p in c.policies ==> Filtering.Compilable(ExtraRules(p)))
    && OnePerClient(c.policies)
  }

  predicate OnePerClient(policies: seq<Policy>) {
    forall i, j :: 0 <= i < j < |policies| ==> policies[i].clientId != policies[j].clientId
  }

  // ---------- compiling ----------

  ghost predicate Serves(t: Option<Table>, c: Config, p: Policy) {
    match p.mode
    case Default => true
    case Disabled => t.None?
    case Custom => t.Some? && Filtering.Compilable(CustomRules(c, p)) && Filtering.Represents(t.value, Filtering.Patterns(CustomRules(c, p)))
  }

  ghost predicate Applies(p: Policy) { p.enabled && !p.mode.Default? }

  /** One of the policies is for the client, and applies. */
  ghost predicate SomeApplies(policies: seq<Policy>, id: int) {
    exists i :: 0 <= i < |policies| && Applies(policies[i]) && policies[i].clientId == id
  }

  /** The compiled tables are those of the first `n` policies. */
  ghost predicate RebuiltTo(t: Compiled, c: Config, n: nat)
    requires n <= |c.policies|
  {
    && (forall i :: 0 <= i < n && Applies(c.policies[i]) ==>
          c.policies[i].clientId in t && Serves(t[c.policies[i].clientId], c, c.policies[i]))
    && (forall id :: id in t ==> SomeApplies(c.policies[..n], id))
  }

  /** Tables of some policies are those of one more, if it applies with its own table. */
  lemma RebuiltOneMore(t: Compiled, c: Config, n: nat, table: Option<Table>)
    requires n < |c.policies| && RebuiltTo(t, c, n) && OnePerClient(c.policies)
    ensures !Applies(c.policies[n]) ==> RebuiltTo(t, c, n + 1)
    ensures Applies(c.policies[n]) && Serves(table, c, c.policies[n]) ==> RebuiltTo(t[c.policies[n].clientId := table], c, n + 1)
  {
    var front, more := c.policies[..n], c.policies[..n + 1];
    assert more[n] == c.policies[n];
    forall id | SomeApplies(front, id) ensures SomeApplies(more, id) {
      var i :| 0 <= i < |front| && Applies(front[i]) && front[i].clientId == id;
      assert more[i] == front[i];
    }
    if Applies(c.policies[n]) {
      assert SomeApplies(more, c.policies[n].clientId);
    }
  }

  ghost predicate Rebuilt(t: Compiled, c: Config) { RebuiltTo(t, c, |c.policies|) }

  /** An enabled custom policy with an unreadable domain. */
  ghost predicate Broken(c: Config, p: Policy) { p.enabled && p.mode.Custom? && !Filtering.Compilable(CustomRules(c, p)) }

  method Compile(c: Config) returns (t: Option<Compiled>)
    requires OnePerClient(c.policies)
    ensures t.Some? ==> Rebuilt(t.value, c)
    ensures t.None? <==> exists p :: p in c.policies && Broken(c, p)
  {
    var out: Compiled := map[];
    for i := 0 to |c.policies|
      invariant RebuiltTo(out, c, i)
      invariant forall j :: 0 <= j < i ==> !Broken(c, c.policies[j])
    {
      var p := c.policies[i];
      if p.enabled && p.mode.Disabled? {
        RebuiltOneMore(out, c, i, None);
        out := out[p.clientId := None];
      } else if p.enabled && p.mode.Custom? {
        var extra := ExtraRules(p);
        var table := Filtering.Subset(c.fixedRules, c.sources, p.blocklists, extra);
        if table.None? {
          assert p in c.policies && Broken(c, p);
          return None;
        }
        RebuiltOneMore(out, c, i, table);
        out := out[p.clientId := table];
      } else {
        RebuiltOneMore(out, c, i, None);
      }
    }
    return Some(out);
  }

  // ---------- deciding ----------

  ghost predicate TableBlocks(t: Table, name: Name) {
    Filtering.NormalizeDomain(name).Some? && Filtering.Decide(t, Filtering.NormalizeDomain(name).value) == Some(Filtering.Block)
  }

  /** `client` is the client that owns the address, if any. */
  ghost predicate BlockedSpec(global: Table, t: Compiled, client: Option<int>, name: Name) {
    if client.Some? && client.value in t then
      t[client.value].Some? && TableBlocks(t[client.value].value, name)
    else TableBlocks(global, name)
  }

  method BlockedFor(global: Table, t: Compiled, client: Option<int>, name: Name) returns (blocked: bool)
    ensures blocked == BlockedSpec(global, t, client, name)
  {
    var verdict: Option<Filtering.Action>;
    if |t| > 0 && client.Some? && client.value in t {
      if t[client.value].None? {
        return false;
      }
      verdict := Filtering.Match(t[client.value].value, name);
    } else {
      verdict := Filtering.Match(global, name);
    }
    blocked := verdict == Some(Filtering.Block);
  }

  /** The filtering in force: the configuration and the tables compiled from it. */
  datatype Filters = Filters(config: Config, global: Table, tables: Compiled)

  ghost predicate InForce(f: Filters) {
    && Sound(f.config) && Filtering.Compilable(GlobalRules(f.config))
    && Filtering.Represents(f.global, Filtering.Patterns(GlobalRules(f.config)))
    && Rebuilt(f.tables, f.config)
  }

  /** What the filter answers for a client, or for one it cannot tell. */
  ghost predicate Blocks(f: Filters, client: Option<int>, known: bool, name: Name) {
    if known then BlockedSpec(f.global, f.tables, client, name) else TableBlocks(f.global, name)
  }

  // ---------- explaining ----------

  datatype RuleRef = ConfigRule | ListRef(id: int, name: string) | PolicyRef(id: int)

  datatype FilterInfo = FilterInfo(perClient: bool, mode: Mode, matches: seq<RuleRef>, allowed: seq<RuleRef>)

  /** The enabled policy of a client; the last one if there were several. */
  method Effective(policies: seq<Policy>, client: Option<int>) returns (p: Option<Policy>)
    requires OnePerClient(policies)
    ensures p.Some? ==> p.value in policies && p.value.enabled && client == Some(p.value.clientId)
    ensures p.None? ==> forall x :: x in policies && x.enabled ==> client != Some(x.clientId)
  {
    p := None;
    if client.None? {
      return;
    }
    for i := 0 to |policies|
      invariant p.Some? ==> p.value in policies && p.value.enabled && client == Some(p.value.clientId)
      invariant p.None? ==> forall j :: 0 <= j < i && policies[j].enabled ==> client != Some(policies[j].clientId)
    {
      if policies[i].clientId == client.value && policies[i].enabled {
        p := Some(policies[i]);
      }
    }
  }

  ghost predicate Explains(info: FilterInfo, blocked: bool) {
    info.allowed == [] && info.matches != [] <==> blocked
  }

  function Put(info: FilterInfo, action: Filtering.Action, ref: RuleRef): FilterInfo {
    if action.Allow? then info.(allowed := info.allowed + [ref]) else info.(matches := info.matches + [ref])
  }

  /** Adds what the configuration, the lists and the extra rules say about a name. */
  method Report(info: FilterInfo, a: Filtering.Attribution, extra: Option<Filtering.Action>, policyId: int) returns (out: FilterInfo)
    requires info.matches == [] && info.allowed == []
    ensures out.allowed == [] <==> a.fixedVerdict != Some(Filtering.Allow) && extra != Some(Filtering.Allow)
    ensures out.matches != [] <==> a.fixedVerdict == Some(Filtering.Block) || a.sources != [] || extra == Some(Filtering.Block)
  {
    out := info;
    if a.fixedVerdict.Some? {
      out := Put(out, a.fixedVerdict.value, ConfigRule);
    }
    ghost var start := out;
    for i := 0 to |a.sources|
      invariant out.allowed == start.allowed && |out.matches| == |start.matches| + i
    {
      out := out.(matches := out.matches + [ListRef(a.sources[i].id, a.sources[i].name)]);
    }
    if extra.Some? {
      out := Put(out, extra.value, PolicyRef(policyId));
    }
  }

  lemma GlobalMeaning(c: Config, global: Table, n: Name)
    requires Sound(c) && Filtering.Compilable(GlobalRules(c)) && Filtering.Represents(global, Filtering.Patterns(GlobalRules(c)))
    ensures Filtering.Decide(global, n) == Some(Filtering.Block)
       <==> (var fixedVerdict := Filtering.Verdict(Filtering.Patterns(c.fixedRules), n);
             fixedVerdict != Some(Filtering.Allow)
             && (fixedVerdict == Some(Filtering.Block) || Filtering.Listed(c.sources, None, n)))
  {
    var lists := Filtering.SourceRules(c.sources, None);
    Filtering.PatternsConcat(c.fixedRules, lists);
    Filtering.SourcesBlock(c.sources, None, n);
    Filtering.BlocksOfUnion(Filtering.Patterns(c.fixedRules), Filtering.Patterns(lists), n);
    Filtering.TableMeansRules(global, Filtering.Patterns(GlobalRules(c)), n);
  }

  lemma CustomMeaning(c: Config, p: Policy, t: Table, n: Name)
    requires Sound(c) && p in c.policies
    requires Filtering.Compilable(CustomRules(c, p)) && Filtering.Represents(t, Filtering.Patterns(CustomRules(c, p)))
    ensures Filtering.Decide(t, n) == Some(Filtering.Block)
       <==> (var fixedVerdict := Filtering.Verdict(Filtering.Patterns(c.fixedRules), n);
             var extra := Filtering.Verdict(Filtering.Patterns(ExtraRules(p)), n);
             fixedVerdict != Some(Filtering.Allow) && extra != Some(Filtering.Allow)
             && (fixedVerdict == Some(Filtering.Block) || extra == Some(Filtering.Block)
                 || Filtering.Listed(c.sources, Some(p.blocklists), n)))
  {
    var lists := Filtering.SourceRules(c.sources, Some(p.blocklists));
    var own := c.fixedRules + ExtraRules(p);
    Filtering.PatternsConcat(own, lists);
    Filtering.PatternsConcat(c.fixedRules, ExtraRules(p));
    Filtering.SourcesBlock(c.sources, Some(p.blocklists), n);
    Filtering.BlocksOfUnion(Filtering.Patterns(own), Filtering.Patterns(lists), n);
    Filtering.BlocksOfUnion(Filtering.Patterns(c.fixedRules), Filtering.Patterns(ExtraRules(p)), n);
    Filtering.TableMeansRules(t, Filtering.Patterns(CustomRules(c, p)), n);
  }

  ghost predicate RulesAllow(rules: seq<Filtering.Rule>, name: Name)
    requires Filtering.Compilable(rules)
  {
    var n := Filtering.NormalizeDomain(name);
    n.Some? && Filtering.Verdict(Filtering.Patterns(rules), n.value) == Some(Filtering.Allow)
  }

  /** The policy that takes the place of the global filtering for a client. */
  ghost predicate Governs(c: Config, client: Option<int>, known: bool, p: Policy) {
    known && p in c.policies && p.enabled && (p.mode == Disabled || p.mode == Custom) && client == Some(p.clientId)
  }

  /** Some rule in force for the client allows the name. */
  ghost predicate AllowedSpec(c: Config, client: Option<int>, known: bool, name: Name)
    requires Sound(c)
  {
    && (forall p :: Governs(c, client, known, p) ==> p.mode.Custom?)
    && (RulesAllow(c.fixedRules, name) || exists p :: Governs(c, client, known, p) && RulesAllow(ExtraRules(p), name))
  }

  lemma GovernorIsUnique(c: Config, client: Option<int>, known: bool, p: Policy, q: Policy)
    requires OnePerClient(c.policies) && Governs(c, client, known, p) && Governs(c, client, known, q)
    ensures p == q
  {
    var i :| 0 <= i < |c.policies| && c.policies[i] == p;
    var j :| 0 <= j < |c.policies| && c.policies[j] == q;
  }

  method ExplainGlobal(c: Config, ghost global: Table, name: Name) returns (info: FilterInfo)
    requires Sound(c) && Filtering.Compilable(GlobalRules(c)) && Filtering.Represents(global, Filtering.Patterns(GlobalRules(c)))
    ensures Explains(info, TableBlocks(global, name)) && !info.perClient
    ensures info.allowed != [] <==> RulesAllow(c.fixedRules, name)
  {
    var a := Filtering.Attribute(c.fixedRules, c.sources, name, None);
    info := Report(FilterInfo(false, Default, [], []), a, None, 0);
    if Filtering.NormalizeDomain(name).Some? {
      GlobalMeaning(c, global, Filtering.NormalizeDomain(name).value);
    }
    info := info.(perClient := false);
  }

  method ExplainCustom(c: Config, p: Policy, ghost t: Table, name: Name) returns (info: FilterInfo)
    requires Sound(c) && p in c.policies
    requires Filtering.Compilable(CustomRules(c, p)) && Filtering.Represents(t, Filtering.Patterns(CustomRules(c, p)))
    ensures Explains(info, TableBlocks(t, name)) && info.perClient
    ensures info.allowed != [] <==> RulesAllow(c.fixedRules, name) || RulesAllow(ExtraRules(p), name)
  {
    var rules := ExtraRules(p);
    var extra := Filtering.New(rules);
    var a := Filtering.Attribute(c.fixedRules, c.sources, name, Some(p.blocklists));
    var own := Filtering.Match(extra.value, name);
    if Filtering.NormalizeDomain(name).Some? {
      var n := Filtering.NormalizeDomain(name).value;
      Filtering.TableMeansRules(extra.value, Filtering.Patterns(rules), n);
      CustomMeaning(c, p, t, n);
    }
    info := Report(FilterInfo(true, p.mode, [], []), a, own, p.id);
    info := info.(perClient := true);
  }

  lemma NoOwnTable(c: Config, t: Compiled, client: int, p: Option<Policy>)
    requires Rebuilt(t, c) && OnePerClient(c.policies)
    requires p.Some? ==> p.value in c.policies && p.value.clientId == client && p.value.mode.Default?
    requires p.None? ==> forall x :: x in c.policies && x.enabled ==> client != x.clientId
    ensures client !in t
  {
    forall i | 0 <= i < |c.policies| && c.policies[i].clientId == client
      ensures !Applies(c.policies[i])
    {
      assert c.policies[i] in c.policies;
    }
    assert c.policies[..|c.policies|] == c.policies;
    assert !SomeApplies(c.policies, client);
  }

  lemma NoGovernor(c: Config, client: Option<int>, p: Option<Policy>)
    requires OnePerClient(c.policies)
    requires p.Some? ==> p.value in c.policies && client == Some(p.value.clientId) && p.value.mode.Default?
    requires p.None? ==> forall x :: x in c.policies && x.enabled ==> client != Some(x.clientId)
    ensures forall x :: !Governs(c, client, true, x)
  {
    forall x | x in c.policies && client == Some(x.clientId)
      ensures !Applies(x)
    {
      if p.Some? {
        var i :| 0 <= i < |c.policies| && c.policies[i] == p.value;
        var j :| 0 <= j < |c.policies| && c.policies[j] == x;
        assert i == j;
      }
    }
  }

  /** The explanation is sound and complete: a query is blocked exactly when the
      explanation lists a match and nothing that allows it, for unknown clients, for
      clients without a policy and in all three modes. */
  method ExplainFilter(f: Filters, client: Option<int>, known: bool, name: Name) returns (info: FilterInfo)
    requires InForce(f)
    ensures Explains(info, Blocks(f, client, known, name))
    ensures info.allowed != [] <==> AllowedSpec(f.config, client, known, name)
  {
    var c := f.config;
    if known {
      var p := Effective(c.policies, client);
      if p.Some? && !p.value.mode.Default? {
        ghost var i :| 0 <= i < |c.policies| && c.policies[i] == p.value;
        assert Applies(c.policies[i]);
        assert Governs(c, client, known, p.value);
        forall x | Governs(c, client, known, x) ensures x == p.value {
          GovernorIsUnique(c, client, known, x, p.value);
        }
        if p.value.mode.Disabled? {
          return FilterInfo(true, Disabled, [], []);
        }
        info := ExplainCustom(c, p.value, f.tables[client.value].value, name);
        return;
      }
      if client.Some? {
        NoOwnTable(c, f.tables, client.value, p);
      }
      NoGovernor(c, client, p);
    }
    info := ExplainGlobal(c, f.global, name);
  }

  // ---------- what the rules say ----------

  /** Some configured rule with that action covers the name. */
  ghost predicate FixedSays(c: Config, action: Filtering.Action, n: Name) {
    exists i :: 0 <= i < |c.fixedRules| && c.fixedRules[i].action == action && Filtering.RuleCovers(c.fixedRules[i], n)
  }

  /** A domain, in any case and with or without a leading "*" label, is at or above a name. */
  predicate Encloses(d: Name, n: Name) { AtOrBelow(n, Lower(if |d| >= 2 && d[0] == "*" then d[1..] else d)) }

  ghost predicate Names(domains: seq<Name>, n: Name) { exists i :: 0 <= i < |domains| && Encloses(domains[i], n) }

  /** Some list has a domain at or above the name: an enabled one, or one of those chosen. */
  ghost predicate OnList(c: Config, ids: Option<seq<int>>, n: Name) {
    exists s :: s in c.sources && (if ids.None? then s.enabled else s.id in ids.value) && Names(s.domains, n)
  }

  /** What a custom policy blocks: what neither the configuration nor the policy allows, and
      one of them or a chosen list names. */
  ghost predicate CustomBlocks(c: Config, p: Policy, n: Name) {
    && !FixedSays(c, Filtering.Allow, n) && !Names(p.allow, n)
    && (FixedSays(c, Filtering.Block, n) || Names(p.block, n) || OnList(c, Some(p.blocklists), n))
  }

  ghost predicate GlobalBlocks(c: Config, n: Name) {
    !FixedSays(c, Filtering.Allow, n) && (FixedSays(c, Filtering.Block, n) || OnList(c, None, n))
  }

  /** What the configured rules say, without any table: a governing policy decides by its
      mode, and otherwise the global rules and lists do. */
  ghost predicate BlockedByRules(c: Config, client: Option<int>, known: bool, name: Name) {
    var n := Filtering.NormalizeDomain(name);
    && n.Some?
    && if exists p :: Governs(c, client, known, p)
       then exists p :: Governs(c, client, known, p) && p.mode.Custom? && CustomBlocks(c, p, n.value)
       else GlobalBlocks(c, n.value)
  }

  lemma RulesForCover(domains: seq<Name>, action: Filtering.Action, n: Name)
    ensures forall i :: 0 <= i < |domains| ==> Filtering.RuleCovers(RulesFor(domains, action)[i], n) == Encloses(domains[i], n)
  {
    forall i | 0 <= i < |domains| ensures Filtering.RuleCovers(RulesFor(domains, action)[i], n) == Encloses(domains[i], n) {
      var d := domains[i];
      var e := Lower(if |d| >= 2 && d[0] == "*" then d[1..] else d);
      assert AtOrBelow(e, e);
    }
  }

  /** What the domains of a policy say. */
  lemma ExtraMeans(p: Policy, n: Name)
    requires Filtering.Compilable(ExtraRules(p))
    ensures Filtering.Verdict(Filtering.Patterns(ExtraRules(p)), n)
         == if Names(p.allow, n) then Some(Filtering.Allow) else if Names(p.block, n) then Some(Filtering.Block) else None
  {
    var rules, k := ExtraRules(p), |p.block|;
    RulesForCover(p.block, Filtering.Block, n);
    RulesForCover(p.allow, Filtering.Allow, n);
    Filtering.VerdictMeans(rules, n);
    assert forall i :: 0 <= i < k ==> rules[i] == RulesFor(p.block, Filtering.Block)[i];
    assert forall i :: 0 <= i < |p.allow| ==> rules[k + i] == RulesFor(p.allow, Filtering.Allow)[i];
    if i :| 0 <= i < |p.allow| && Encloses(p.allow[i], n) {
      assert rules[k + i].action == Filtering.Allow && Filtering.RuleCovers(rules[k + i], n);
    }
    if i :| 0 <= i < k && Encloses(p.block[i], n) {
      assert rules[i].action == Filtering.Block && Filtering.RuleCovers(rules[i], n);
    }
    forall i | 0 <= i < |rules| && Filtering.RuleCovers(rules[i], n)
      ensures if rules[i].action == Filtering.Allow then Names(p.allow, n) else Names(p.block, n)
    {
      if i < k {
        assert Encloses(p.block[i], n);
      } else {
        assert rules[k + (i - k)] == RulesFor(p.allow, Filtering.Allow)[i - k];
        assert Encloses(p.allow[i - k], n);
      }
    }
  }

  lemma ListedMeans(c: Config, ids: Option<seq<int>>, n: Name)
    requires forall s :: s in c.sources ==> Filtering.StoredForm(s)
    ensures Filtering.Listed(c.sources, ids, n) <==> OnList(c, ids, n)
  {
    forall s | s in c.sources ensures Filtering.SourceCovers(s, n) <==> Names(s.domains, n) {
      forall i | 0 <= i < |s.domains| ensures AtOrBelow(n, Filtering.StripStar(s.domains[i])) <==> Encloses(s.domains[i], n) {
        Filtering.StarIsLower(s.domains[i]);
        StoredIsLower(s.domains[i]);
      }
    }
  }

  lemma StoredIsLower(d: Name)
    requires Filtering.NormalizeDomain(d) == Some(Filtering.StripStar(d))
    ensures Filtering.StripStar(Lower(d)) == Filtering.StripStar(d)
  {
  }

  lemma FixedMeans(c: Config, n: Name)
    requires Filtering.Compilable(c.fixedRules)
    ensures Filtering.Verdict(Filtering.Patterns(c.fixedRules), n)
         == if FixedSays(c, Filtering.Allow, n) then Some(Filtering.Allow) else if FixedSays(c, Filtering.Block, n) then Some(Filtering.Block) else None
  {
    Filtering.VerdictMeans(c.fixedRules, n);
  }

  lemma CustomTableMeans(c: Config, p: Policy, t: Table, name: Name)
    requires Sound(c) && p in c.policies
    requires Filtering.Compilable(CustomRules(c, p)) && Filtering.Represents(t, Filtering.Patterns(CustomRules(c, p)))
    ensures TableBlocks(t, name) <==> var n := Filtering.NormalizeDomain(name); n.Some? && CustomBlocks(c, p, n.value)
  {
    if Filtering.NormalizeDomain(name).Some? {
      var n := Filtering.NormalizeDomain(name).value;
      CustomMeaning(c, p, t, n);
      FixedMeans(c, n);
      ExtraMeans(p, n);
      ListedMeans(c, Some(p.blocklists), n);
    }
  }

  lemma GlobalTableMeans(c: Config, t: Table, name: Name)
    requires Sound(c) && Filtering.Compilable(GlobalRules(c)) && Filtering.Represents(t, Filtering.Patterns(GlobalRules(c)))
    ensures TableBlocks(t, name) <==> var n := Filtering.NormalizeDomain(name); n.Some? && GlobalBlocks(c, n.value)
  {
    if Filtering.NormalizeDomain(name).Some? {
      var n := Filtering.NormalizeDomain(name).value;
      GlobalMeaning(c, t, n);
      FixedMeans(c, n);
      ListedMeans(c, None, n);
    }
  }

  lemma GovernedTable(f: Filters, client: Option<int>, p: Policy)
    requires InForce(f) && Governs(f.config, client, true, p)
    ensures client.value in f.tables && Serves(f.tables[client.value], f.config, p)
  {
    var i :| 0 <= i < |f.config.policies| && f.config.policies[i] == p;
  }

  lemma UngovernedTable(f: Filters, client: Option<int>)
    requires InForce(f) && client.Some? && client.value in f.tables
    ensures exists p :: Governs(f.config, client, true, p)
  {
    var ps := f.config.policies;
    assert ps[..|ps|] == ps;
    assert SomeApplies(ps, client.value);
    var i :| 0 <= i < |ps| && Applies(ps[i]) && ps[i].clientId == client.value;
    assert Governs(f.config, client, true, ps[i]);
  }

  /** The tables block exactly what the rules in force for the client block. */
  lemma BlocksMeansRules(f: Filters, client: Option<int>, known: bool, name: Name)
    requires InForce(f)
    ensures Blocks(f, client, known, name) <==> BlockedByRules(f.config, client, known, name)
  {
    var c := f.config;
    if p :| Governs(c, client, known, p) {
      GovernedTable(f, client, p);
      forall x | Governs(c, client, known, x) ensures x == p {
        GovernorIsUnique(c, client, known, x, p);
      }
      if p.mode.Custom? {
        CustomTableMeans(c, p, f.tables[client.value].value, name);
      }
    } else {
      if known && client.Some? && client.value in f.tables {
        UngovernedTable(f, client);
      }
      GlobalTableMeans(c, f.global, name);
    }
  }

  // ---------- editing ----------

  const MAX_POLICIES := 64
  const MAX_EXTRA_DOMAINS := 1000

  datatype SaveError = Invalid | NotFound | Exists | TooMany | Uncompilable | StoreFailed

  function ReadId(id: int): Read<int> { if id < 1 then Bad else Good(id) }

  /** A blank entry has no labels at all and is passed over. */
  function ReadDomain(raw: Name): Read<Name> {
    if raw == [] then Skip
    else if Filtering.NormalizeDomain(raw).None? then Bad
    else Good(Filtering.NormalizeDomain(raw).value)
  }

  function Self(id: int): int { id }

  /** A policy as it is stored; `mode` is the mode entered, if it is one. Only the custom
      mode has lists: each number and each domain once, numbers ascending, domains in
      normal form. */
  function NormalPolicy(raw: Policy, mode: Option<Mode>): Option<Policy> {
    if raw.clientId < 1 || mode.None? then None
    else if !mode.value.Custom? then Some(raw.(mode := mode.value, blocklists := [], allow := [], block := []))
    else
      var ids, allow, block := Values(ReadId, raw.blocklists), Values(ReadDomain, raw.allow), Values(ReadDomain, raw.block);
      if ids.None? || allow.None? || block.None? || |allow.value| + |block.value| > MAX_EXTRA_DOMAINS then None
      else Some(raw.(mode := Custom, blocklists := Arranged(ByNumber, Self, ids.value), allow := allow.value, block := block.value))
  }

  /** The lists say what was entered: the same numbers in ascending order, the normal
      forms of the same domains. */
  ghost predicate SaysTheSame(p: Policy, raw: Policy) {
    && NoDuplicates(p.blocklists) && InOrder(ByNumber, Self, p.blocklists)
    && (forall id :: id in p.blocklists <==> id in raw.blocklists)
    && SameDomains(p.allow, raw.allow) && SameDomains(p.block, raw.block)
  }

  ghost predicate SameDomains(out: seq<Name>, raws: seq<Name>) {
    NoDuplicates(out) && forall d :: d in out <==> SomeReads(ReadDomain, raws, d)
  }

  lemma IdsMean(raws: seq<int>)
    requires Values(ReadId, raws).Some?
    ensures var out := Arranged(ByNumber, Self, Values(ReadId, raws).value);
            NoDuplicates(out) && InOrder(ByNumber, Self, out) && forall id :: id in out <==> id in raws
  {
    ValuesMean(ReadId, raws);
    var ids := Values(ReadId, raws).value;
    var out := Arranged(ByNumber, Self, ids);
    ArrangedIsSorted(ByNumber, Self, ids);
    assert DistinctKeys(Self, ids);
    DistinctStay(Self, ids, out);
    assert forall i, j :: 0 <= i < j < |out| ==> Self(out[i]) != Self(out[j]);
    forall id ensures id in out <==> id in raws {
      if id in out {
        SameMembers(out, ids, id);
      }
      if id in raws {
        var i :| 0 <= i < |raws| && raws[i] == id;
        assert ReadId(raws[i]) == Good(id);
        assert SomeReads(ReadId, raws, id);
        SameMembers(ids, out, id);
      }
    }
  }

  /** A custom policy is stored with what was entered. */
  lemma NormalPolicyMeans(raw: Policy, mode: Option<Mode>)
    requires NormalPolicy(raw, mode).Some? && mode.value.Custom?
    ensures SaysTheSame(NormalPolicy(raw, mode).value, raw)
  {
    IdsMean(raw.blocklists);
    ValuesMean(ReadDomain, raw.allow);
    ValuesMean(ReadDomain, raw.block);
  }

  /** The domains of a stored policy can be compiled. */
  lemma NormalPolicyCompiles(raw: Policy, mode: Option<Mode>)
    requires NormalPolicy(raw, mode).Some?
    ensures Filtering.Compilable(ExtraRules(NormalPolicy(raw, mode).value))
  {
    var p := NormalPolicy(raw, mode).value;
    if mode.value.Custom? {
      DomainsCompile(raw.allow, Filtering.Allow);
      DomainsCompile(raw.block, Filtering.Block);
    }
    Filtering.PatternsConcat(RulesFor(p.block, Filtering.Block), RulesFor(p.allow, Filtering.Allow));
  }

  lemma DomainsCompile(raws: seq<Name>, action: Filtering.Action)
    requires Values(ReadDomain, raws).Some?
    ensures Filtering.Compilable(RulesFor(Values(ReadDomain, raws).value, action))
  {
    ValuesMean(ReadDomain, raws);
    var out := Values(ReadDomain, raws).value;
    forall i | 0 <= i < |out| ensures Filtering.PatternOf(Filtering.Rule(out[i], true, action)).Some? {
      assert out[i] in out;
      var j :| 0 <= j < |raws| && ReadDomain(raws[j]) == Good(out[i]);
      Filtering.NormalizeDomainIdempotent(raws[j]);
    }
  }

  method Normalize(raw: Policy, mode: Option<Mode>) returns (p: Option<Policy>)
    ensures p == NormalPolicy(raw, mode)
    ensures p.Some? && p.value.mode.Custom? ==> SaysTheSame(p.value, raw)
  {
    if raw.clientId < 1 || mode.None? {
      return None;
    }
    if !mode.value.Custom? {
      return Some(raw.(mode := mode.value, blocklists := [], allow := [], block := []));
    }
    var ids := ReadAll(ReadId, raw.blocklists);
    if ids.None? {
      return None;
    }
    var sorted := Sort(ByNumber, Self, ids.value);
    var allow := ReadAll(ReadDomain, raw.allow);
    var block := ReadAll(ReadDomain, raw.block);
    if allow.None? || block.None? || |allow.value| + |block.value| > MAX_EXTRA_DOMAINS {
      return None;
    }
    p := Some(raw.(mode := Custom, blocklists := sorted, allow := allow.value, block := block.value));
    NormalPolicyMeans(raw, mode);
  }

  /** The first policy of a number, or -1. */
  function IndexOfId(policies: seq<Policy>, id: int): (k: int)
    ensures -1 <= k < |policies| && (k >= 0 ==> policies[k].id == id)
    ensures k < 0 ==> forall j :: 0 <= j < |policies| ==> policies[j].id != id
  {
    if policies == [] then -1
    else
      var n := |policies| - 1;
      var k := IndexOfId(policies[..n], id);
      if k >= 0 then k else if policies[n].id == id then n else -1
  }

  method IndexOf(policies: seq<Policy>, id: int) returns (k: int)
    ensures k == IndexOfId(policies, id)
  {
    for i := 0 to |policies|
      invariant IndexOfId(policies[..i], id) == -1
    {
      assert policies[..i + 1][..i] == policies[..i];
      if policies[i].id == id {
        StillFirst(policies, i + 1, id);
        return i;
      }
    }
    assert policies[..|policies|] == policies;
    return -1;
  }

  lemma {:induction false} StillFirst(policies: seq<Policy>, i: nat, id: int)
    requires i <= |policies| && IndexOfId(policies[..i], id) >= 0
    ensures IndexOfId(policies, id) == IndexOfId(policies[..i], id)
    decreases |policies|
  {
    if i < |policies| {
      StillFirst(policies[..|policies| - 1], i, id);
      assert policies[..|policies| - 1][..i] == policies[..i];
    } else {
      assert policies[..i] == policies;
    }
  }

  /** Where a policy goes: its own place, or none yet. */
  function PlaceOf(policies: seq<Policy>, p: Policy): (k: int)
    ensures -1 <= k < |policies|
  {
    if p.id == 0 then -1 else IndexOfId(policies, p.id)
  }

  predicate ClientTaken(policies: seq<Policy>, p: Policy) {
    exists i :: 0 <= i < |policies| && i != PlaceOf(policies, p) && policies[i].clientId == p.clientId
  }

  function Placed(policies: seq<Policy>, p: Policy, newId: int): seq<Policy> {
    var k := PlaceOf(policies, p);
    if k < 0 then policies + [p.(id := newId)] else policies[k := p]
  }

  /** Why a save is refused, in the order in which the reasons are looked for. */
  ghost function Refusal(c: Config, p: Policy, newId: int, stored: bool): Option<SaveError> {
    if p.id != 0 && PlaceOf(c.policies, p) < 0 then Some(NotFound)
    else if ClientTaken(c.policies, p) then Some(Exists)
    else if p.id == 0 && |c.policies| >= MAX_POLICIES then Some(TooMany)
    else
      var candidate := c.(policies := Placed(c.policies, p, newId));
      if exists x :: x in candidate.policies && Broken(candidate, x) then Some(Uncompilable)
      else if !stored then Some(StoreFailed)
      else None
  }

  function ClientOf(p: Policy): int { p.clientId }
  function ByNumber(a: int, b: int): bool { a <= b }

  /** The tables of a list of policies are those of the same policies in another order. */
  lemma RebuiltInAnyOrder(t: Compiled, c: Config, other: seq<Policy>)
    requires Rebuilt(t, c) && multiset(c.policies) == multiset(other)
    ensures Rebuilt(t, c.(policies := other))
  {
    var d := c.(policies := other);
    forall i | 0 <= i < |other| && Applies(other[i])
      ensures other[i].clientId in t && Serves(t[other[i].clientId], d, other[i])
    {
      SameMembers(other, c.policies, other[i]);
      var j :| 0 <= j < |c.policies| && c.policies[j] == other[i];
      assert CustomRules(d, other[i]) == CustomRules(c, c.policies[j]);
    }
    assert c.policies[..|c.policies|] == c.policies && other[..|other|] == other;
    forall id | id in t
      ensures SomeApplies(other, id)
    {
      assert SomeApplies(c.policies, id);
      var j :| 0 <= j < |c.policies| && Applies(c.policies[j]) && c.policies[j].clientId == id;
      SameMembers(c.policies, other, c.policies[j]);
    }
  }

  lemma PlacedKeepsOnePerClient(policies: seq<Policy>, p: Policy, newId: int)
    requires OnePerClient(policies) && !ClientTaken(policies, p)
    ensures OnePerClient(Placed(policies, p, newId))
  {
  }

  /** Adds or replaces a policy in normal form. Success leaves the policies sorted by client, one per
      client, with tables rebuilt for exactly them; a refusal leaves everything as it was. */
  method Store(c: Config, p: Policy, newId: int, stored: bool) returns (out: Config, t: Option<Compiled>, error: Option<SaveError>)
    requires OnePerClient(c.policies)
    ensures error == Refusal(c, p, newId, stored)
    ensures error.Some? ==> out == c
    ensures error.None? ==> out == c.(policies := out.policies) && Sorted(ByNumber, ClientOf, Placed(c.policies, p, newId), out.policies)
    ensures error.None? ==> t.Some? && Rebuilt(t.value, out) && OnePerClient(out.policies)
  {
    out, t := c, None;
    var index := -1;
    if p.id != 0 {
      index := IndexOf(c.policies, p.id);
      if index < 0 {
        return c, None, Some(NotFound);
      }
    }
    for i := 0 to |c.policies|
      invariant forall j :: 0 <= j < i && j != index ==> c.policies[j].clientId != p.clientId
    {
      if i != index && c.policies[i].clientId == p.clientId {
        return c, None, Some(Exists);
      }
    }
    if p.id == 0 && |c.policies| >= MAX_POLICIES {
      return c, None, Some(TooMany);
    }
    var saved := if p.id == 0 then p.(id := newId) else p;
    var candidate := if index < 0 then c.policies + [saved] else c.policies[index := saved];
    PlacedKeepsOnePerClient(c.policies, p, newId);
    t := Compile(c.(policies := candidate));
    if t.None? {
      return c, None, Some(Uncompilable);
    }
    if !stored {
      return c, None, Some(StoreFailed);
    }
    var sorted := Sort(ByNumber, ClientOf, candidate);
    RebuiltInAnyOrder(t.value, c.(policies := candidate), sorted);
    out := c.(policies := sorted);
    error := None;
  }

  lemma SoundCompiles(c: Config, p: Policy)
    requires Sound(c) && p in c.policies
    ensures Filtering.Compilable(CustomRules(c, p)) && !Broken(c, p)
  {
    var lists := Filtering.SourceRules(c.sources, Some(p.blocklists));
    Filtering.SourcesBlock(c.sources, Some(p.blocklists), []);
    Filtering.PatternsConcat(c.fixedRules, ExtraRules(p));
    Filtering.PatternsConcat(c.fixedRules + ExtraRules(p), lists);
  }

  lemma PlacedKeepsSound(c: Config, p: Policy, newId: int)
    requires Sound(c) && !ClientTaken(c.policies, p) && Filtering.Compilable(ExtraRules(p))
    ensures Sound(c.(policies := Placed(c.policies, p, newId)))
  {
    PlacedKeepsOnePerClient(c.policies, p, newId);
    assert ExtraRules(p.(id := newId)) == ExtraRules(p);
  }

  lemma SoundInAnyOrder(c: Config, other: seq<Policy>)
    requires Sound(c) && multiset(c.policies) == multiset(other)
    ensures Sound(c.(policies := other))
  {
    forall p | p in other ensures Filtering.Compilable(ExtraRules(p)) {
      SameMembers(other, c.policies, p);
    }
    assert DistinctKeys(ClientOf, c.policies);
    DistinctStay(ClientOf, c.policies, other);
    assert forall i, j :: 0 <= i < j < |other| ==> ClientOf(other[i]) != ClientOf(other[j]);
  }

  /** Normalises what was entered and stores it. Sound data stays sound, and never fails
      to compile. */
  method Save(c: Config, raw: Policy, mode: Option<Mode>, newId: int, stored: bool)
    returns (out: Config, t: Option<Compiled>, error: Option<SaveError>)
    requires OnePerClient(c.policies)
    ensures error == if NormalPolicy(raw, mode).None? then Some(Invalid) else Refusal(c, NormalPolicy(raw, mode).value, newId, stored)
    ensures Sound(c) ==> error != Some(Uncompilable) && Sound(out)
    ensures error.Some? ==> out == c
    ensures error.None? ==> Sorted(ByNumber, ClientOf, Placed(c.policies, NormalPolicy(raw, mode).value, newId), out.policies)
    ensures error.None? ==> out == c.(policies := out.policies) && t.Some? && Rebuilt(t.value, out)
  {
    var p := Normalize(raw, mode);
    if p.None? {
      return c, None, Some(Invalid);
    }
    out, t, error := Store(c, p.value, newId, stored);
    NormalPolicyCompiles(raw, mode);
    if Sound(c) && !ClientTaken(c.policies, p.value) {
      var candidate := c.(policies := Placed(c.policies, p.value, newId));
      PlacedKeepsSound(c, p.value, newId);
      forall y | y in candidate.policies ensures !Broken(candidate, y) {
        SoundCompiles(candidate, y);
      }
      if error.None? {
        SoundInAnyOrder(candidate, out.policies);
      }
    }
  }

  /** Which refusal a policy in normal form meets: an unknown number, a client that has
      another policy, one policy too many, rules that cannot be compiled, a store that
      fails; in this order. */
  lemma RefusalMeans(c: Config, p: Policy, newId: int, stored: bool)
    ensures var o := Refusal(c, p, newId, stored);
            var unknown := p.id != 0 && forall i :: 0 <= i < |c.policies| ==> c.policies[i].id != p.id;
            var taken := exists i :: 0 <= i < |c.policies| && c.policies[i].clientId == p.clientId && i != PlaceOf(c.policies, p);
            var full := p.id == 0 && |c.policies| >= 64;
            && (o == Some(NotFound) <==> unknown)
            && (o == Some(Exists) <==> !unknown && taken)
            && (o == Some(TooMany) <==> !unknown && !taken && full)
            && (o == None ==> !unknown && !taken && !full && stored)
            && (o == Some(StoreFailed) ==> !stored) && o != Some(Invalid)
  {
  }

  /** A saved policy is in the list under its number, and all others are kept. */
  lemma PlacedMeans(policies: seq<Policy>, p: Policy, newId: int)
    ensures var k, out := PlaceOf(policies, p), Placed(policies, p, newId);
            && (k < 0 ==> |out| == |policies| + 1 && out[|policies|] == p.(id := newId) && out[..|policies|] == policies)
            && (k >= 0 ==> |out| == |policies| && policies[k].id == p.id && out[k] == p && forall i :: 0 <= i < |out| && i != k ==> out[i] == policies[i])
            && (k < 0 <==> p.id == 0 || forall i :: 0 <= i < |policies| ==> policies[i].id != p.id)
  {
  }
}
