/** Conditional forwarding: which rule handles a name, and which names a change of
    rules can affect. */
module Forwarding {
  import opened Dns
  import Filtering
  import opened Input

  const MAX_RULES := 256
  const MAX_UPSTREAMS := 4
  const MAX_DESCRIPTION := 200

  datatype Rule = Rule(id: int, domain: Name, upstreams: seq<string>, enabled: bool, description: string)

  type Table = map<Name, Rule>

  // ---------- the lookup table ----------

  function TableOf(rules: seq<Rule>): Table {
    if rules == [] then map[]
    else
      var last := rules[|rules| - 1];
      var t := TableOf(rules[..|rules| - 1]);
      if last.enabled then t[last.domain := last] else t
  }

  method Compile(rules: seq<Rule>) returns (t: Table)
    ensures t == TableOf(rules)
  {
    t := map[];
    for i := 0 to |rules|
      invariant t == TableOf(rules[..i])
    {
      assert rules[..i + 1][..i] == rules[..i];
      if !rules[i].enabled {
        continue;
      }
      t := t[rules[i].domain := rules[i]];
    }
    assert rules[..|rules|] == rules;
  }

  /** Walks up from the name; the first domain with a rule wins. */
  method Match(t: Table, name: Name) returns (r: Option<Rule>)
    ensures r == Closest(t, Lower(name))
  {
    if |t| == 0 {
      EmptyTableMatchesNothing(t, Lower(name));
      return None;
    }
    r := WalkUp(t, Lower(name));
  }

  lemma {:induction false} EmptyTableMatchesNothing(t: Table, n: Name)
    requires |t| == 0
    ensures Closest(t, n) == None
  {
    if n != [] {
      EmptyTableMatchesNothing(t, n[1..]);
    }
  }

  // ---------- what the rules mean ----------

  predicate WellFormed(rules: seq<Rule>) {
    && (forall i, j :: 0 <= i < j < |rules| ==> rules[i].id != rules[j].id && rules[i].domain != rules[j].domain)
    && (forall i :: 0 <= i < |rules| ==> rules[i].domain != [] && Lower(rules[i].domain) == rules[i].domain && rules[i].id != 0)
  }

  predicate Handles(r: Rule, name: Name) { r.enabled && AtOrBelow(Lower(name), r.domain) }

  /** The handling rule with the longest domain. */
  ghost predicate MostSpecific(rules: seq<Rule>, name: Name, r: Rule) {
    r in rules && Handles(r, name) && forall x :: x in rules && Handles(x, name) ==> |x.domain| <= |r.domain|
  }

  lemma {:induction false} TableOfMembers(rules: seq<Rule>)
    requires forall i, j :: 0 <= i < j < |rules| ==> rules[i].domain != rules[j].domain
    ensures forall r :: r in rules && r.enabled ==> r.domain in TableOf(rules) && TableOf(rules)[r.domain] == r
    ensures forall d :: d in TableOf(rules) ==> TableOf(rules)[d] in rules && TableOf(rules)[d].enabled && TableOf(rules)[d].domain == d
  {
    if rules != [] {
      var init, last := rules[..|rules| - 1], rules[|rules| - 1];
      TableOfMembers(init);
      assert forall r :: r in rules <==> r in init || r == last;
      forall r | r in init
        ensures r.domain != last.domain
      {
        var i :| 0 <= i < |init| && init[i] == r;
        assert rules[i] == r;
      }
    }
  }

  /** The table walk finds the most specific enabled rule above a name, and nothing
      exactly when there is none. */
  lemma MatchIsMostSpecific(rules: seq<Rule>, name: Name)
    requires WellFormed(rules)
    ensures var found := Closest(TableOf(rules), Lower(name));
            && (found.Some? ==> MostSpecific(rules, name, found.value))
            && (found.None? ==> forall r :: r in rules ==> !Handles(r, name))
  {
    TableOfMembers(rules);
    ClosestIsLongest(TableOf(rules), Lower(name));
  }

  /** There is at most one most specific rule. */
  lemma MostSpecificIsUnique(rules: seq<Rule>, name: Name, a: Rule, b: Rule)
    requires WellFormed(rules) && MostSpecific(rules, name, a) && MostSpecific(rules, name, b)
    ensures a == b
  {
    assert a.domain == b.domain;
    var i :| 0 <= i < |rules| && rules[i] == a;
    var j :| 0 <= j < |rules| && rules[j] == b;
  }

  // ---------- changes ----------

  datatype Outcome =
    | Changed(rules: seq<Rule>, domains: seq<Name>)
    | Invalid | Exists | NotFound | TooMany | StoreFailed

  /** How upstream addresses are read, and which are the server's own listeners. */
  datatype Hosts = Hosts(read: string -> Option<string>, own: string -> bool)

  /** The addresses in their standard text, in order; none if one is unusable, the
      server's own, or listed twice. */
  function UpstreamsOf(h: Hosts, raws: seq<string>): Option<seq<string>> {
    if raws == [] then Some([])
    else
      var n := |raws| - 1;
      var front, last := UpstreamsOf(h, raws[..n]), h.read(raws[n]);
      if front.None? || last.None? || h.own(last.value) || last.value in front.value then None
      else Some(front.value + [last.value])
  }

  ghost predicate GoodUpstreams(h: Hosts, raws: seq<string>) {
    && (forall i :: 0 <= i < |raws| ==> h.read(raws[i]).Some? && !h.own(h.read(raws[i]).value))
    && (forall i, j :: 0 <= i < j < |raws| ==> h.read(raws[i]) != h.read(raws[j]))
  }

  lemma {:induction false} UpstreamsMean(h: Hosts, raws: seq<string>)
    ensures UpstreamsOf(h, raws).Some? <==> GoodUpstreams(h, raws)
    ensures UpstreamsOf(h, raws).Some? ==> var out := UpstreamsOf(h, raws).value;
              |out| == |raws| && forall i :: 0 <= i < |raws| ==> h.read(raws[i]) == Some(out[i])
  {
    if raws != [] {
      var n := |raws| - 1;
      UpstreamsMean(h, raws[..n]);
      assert forall i :: 0 <= i < n ==> raws[..n][i] == raws[i];
      var front := UpstreamsOf(h, raws[..n]);
      if front.Some? && h.read(raws[n]).Some? && h.read(raws[n]).value in front.value {
        var i :| 0 <= i < n && front.value[i] == h.read(raws[n]).value;
        assert h.read(raws[i]) == h.read(raws[n]);
      }
    }
  }

  method NormalizeUpstreams(h: Hosts, raws: seq<string>) returns (out: Option<seq<string>>)
    ensures out == UpstreamsOf(h, raws)
    ensures out.Some? <==> GoodUpstreams(h, raws)
  {
    UpstreamsMean(h, raws);
    var upstreams: seq<string> := [];
    for i := 0 to |raws|
      invariant UpstreamsOf(h, raws[..i]) == Some(upstreams)
    {
      assert raws[..i + 1][..i] == raws[..i];
      var address := h.read(raws[i]);
      if address.None? || h.own(address.value) || address.value in upstreams {
        FailsOnward(h, raws, i + 1);
        return None;
      }
      upstreams := upstreams + [address.value];
    }
    assert raws[..|raws|] == raws;
    return Some(upstreams);
  }

  lemma {:induction false} FailsOnward(h: Hosts, raws: seq<string>, i: nat)
    requires i <= |raws| && UpstreamsOf(h, raws[..i]).None?
    ensures UpstreamsOf(h, raws).None?
    decreases |raws|
  {
    if i < |raws| {
      assert raws[..|raws| - 1][..i] == raws[..i];
      FailsOnward(h, raws[..|raws| - 1], i);
    } else {
      assert raws[..i] == raws;
    }
  }

  /** Rules cover subdomains by themselves, so a wildcard is refused. */
  function NormalizeRule(h: Hosts, r: Rule): Option<Rule> {
    if r.domain != [] && r.domain[0] != [] && r.domain[0][0] == '*' then None
    else if Filtering.NormalizeDomain(r.domain).None? then None
    else if |r.description| > MAX_DESCRIPTION || !OneLine(r.description) || !(1 <= |r.upstreams| <= MAX_UPSTREAMS) then None
    else if UpstreamsOf(h, r.upstreams).None? then None
    else Some(r.(domain := Filtering.NormalizeDomain(r.domain).value, upstreams := UpstreamsOf(h, r.upstreams).value))
  }

  method Normalize(h: Hosts, r: Rule) returns (out: Option<Rule>)
    ensures out == NormalizeRule(h, r)
  {
    if r.domain != [] && r.domain[0] != [] && r.domain[0][0] == '*' {
      return None;
    }
    var domain := Filtering.NormalizeDomain(r.domain);
    if domain.None? || |r.description| > MAX_DESCRIPTION || !OneLine(r.description) {
      return None;
    }
    if |r.upstreams| == 0 || |r.upstreams| > MAX_UPSTREAMS {
      return None;
    }
    var upstreams := NormalizeUpstreams(h, r.upstreams);
    if upstreams.None? {
      return None;
    }
    return Some(r.(domain := domain.value, upstreams := upstreams.value));
  }

  function IndexOfId(rules: seq<Rule>, id: int): (k: int)
    ensures -1 <= k < |rules|
    ensures k >= 0 ==> rules[k].id == id
    ensures k < 0 ==> forall i :: 0 <= i < |rules| ==> rules[i].id != id
  {
    if rules == [] then -1
    else if rules[|rules| - 1].id == id then |rules| - 1
    else IndexOfId(rules[..|rules| - 1], id)
  }

  predicate DomainTaken(rules: seq<Rule>, r: Rule) {
    exists i :: 0 <= i < |rules| && !(rules[i].id == r.id && r.id != 0) && rules[i].domain == r.domain
  }

  /** The outcome of storing a rule in normal form; `newId` is the number the database
      gives a new rule, or nothing if it cannot store the rule. */
  function StoreOutcome(rules: seq<Rule>, r: Rule, newId: Option<int>): Outcome {
    var k := if r.id == 0 then -1 else IndexOfId(rules, r.id);
    if DomainTaken(rules, r) then Exists
    else if r.id != 0 && k < 0 then NotFound
    else if r.id == 0 && |rules| >= MAX_RULES then TooMany
    else if newId.None? then StoreFailed
    else if k < 0 then Changed(rules + [r.(id := newId.value)], [r.domain])
    else Changed(rules[k := r], if rules[k].domain == r.domain then [r.domain] else [r.domain, rules[k].domain])
  }

  function SaveOutcome(h: Hosts, rules: seq<Rule>, raw: Rule, newId: Option<int>): Outcome {
    var normal := NormalizeRule(h, raw);
    if normal.None? then Invalid else StoreOutcome(rules, normal.value, newId)
  }

  function DeleteOutcome(rules: seq<Rule>, id: int, stored: bool): Outcome {
    var k := IndexOfId(rules, id);
    if k < 0 then NotFound
    else if !stored then StoreFailed
    else Changed(rules[..k] + rules[k + 1..], [rules[k].domain])
  }

  predicate FreshId(rules: seq<Rule>, id: int) {
    id != 0 && forall i :: 0 <= i < |rules| ==> rules[i].id != id
  }

  predicate NormalForm(r: Rule) { r.domain != [] && Lower(r.domain) == r.domain }

  lemma NormalizeRuleNormal(h: Hosts, raw: Rule)
    requires NormalizeRule(h, raw).Some?
    ensures NormalForm(NormalizeRule(h, raw).value)
  {
    Filtering.PlainIsLower(NormalizeRule(h, raw).value.domain);
  }

  lemma StoreKeepsWellFormed(rules: seq<Rule>, r: Rule, newId: Option<int>)
    requires WellFormed(rules) && NormalForm(r) && (newId.Some? ==> FreshId(rules, newId.value))
    ensures StoreOutcome(rules, r, newId).Changed? ==> WellFormed(StoreOutcome(rules, r, newId).rules)
  {
  }

  lemma DeleteKeepsWellFormed(rules: seq<Rule>, id: int, stored: bool)
    requires WellFormed(rules)
    ensures DeleteOutcome(rules, id, stored).Changed? ==> WellFormed(DeleteOutcome(rules, id, stored).rules)
  {
  }

  lemma SameElsewhere(rules: seq<Rule>, out: seq<Rule>, domains: seq<Name>, d: Name)
    requires WellFormed(rules) && WellFormed(out) && d !in domains
    requires forall i :: 0 <= i < |rules| && rules[i].domain !in domains ==> rules[i] in out
    requires forall i :: 0 <= i < |out| && out[i].domain !in domains ==> out[i] in rules
    ensures (d in TableOf(rules) <==> d in TableOf(out)) && (d in TableOf(rules) ==> TableOf(rules)[d] == TableOf(out)[d])
  {
    TableOfMembers(rules);
    TableOfMembers(out);
    if d in TableOf(rules) {
      assert TableOf(rules)[d] in out;
    }
    if d in TableOf(out) {
      assert TableOf(out)[d] in rules;
    }
  }

  lemma AffectsOnlyReported(rules: seq<Rule>, out: seq<Rule>, domains: seq<Name>, n: Name)
    requires WellFormed(rules) && WellFormed(out)
    requires forall i :: 0 <= i < |rules| && rules[i].domain !in domains ==> rules[i] in out
    requires forall i :: 0 <= i < |out| && out[i].domain !in domains ==> out[i] in rules
    requires forall d :: d in domains ==> !AtOrBelow(n, d)
    ensures Closest(TableOf(out), n) == Closest(TableOf(rules), n)
  {
    forall d | d !in domains
      ensures (d in TableOf(rules) <==> d in TableOf(out)) && (d in TableOf(rules) ==> TableOf(rules)[d] == TableOf(out)[d])
    {
      SameElsewhere(rules, out, domains, d);
    }
    ChangeIsLocal(TableOf(rules), TableOf(out), domains, n);
  }

  /** Storing a rule changes which rule handles a name only at or below the domains it
      reports: the new domain and, on a rename, the old one. */
  lemma StoreAffectsOnlyReported(rules: seq<Rule>, r: Rule, newId: Option<int>, name: Name)
    requires WellFormed(rules) && NormalForm(r) && (newId.Some? ==> FreshId(rules, newId.value))
    requires StoreOutcome(rules, r, newId).Changed?
    requires forall d :: d in StoreOutcome(rules, r, newId).domains ==> !AtOrBelow(Lower(name), d)
    ensures Closest(TableOf(StoreOutcome(rules, r, newId).rules), Lower(name)) == Closest(TableOf(rules), Lower(name))
  {
    var out := StoreOutcome(rules, r, newId);
    StoreKeepsWellFormed(rules, r, newId);
    forall i | 0 <= i < |rules| && rules[i].domain !in out.domains
      ensures rules[i] in out.rules
    {
      assert out.rules[i] == rules[i];
    }
    AffectsOnlyReported(rules, out.rules, out.domains, Lower(name));
  }

  lemma SaveAffectsOnlyReported(h: Hosts, rules: seq<Rule>, raw: Rule, newId: Option<int>, name: Name)
    requires WellFormed(rules) && (newId.Some? ==> FreshId(rules, newId.value))
    requires SaveOutcome(h, rules, raw, newId).Changed?
    requires forall d :: d in SaveOutcome(h, rules, raw, newId).domains ==> !AtOrBelow(Lower(name), d)
    ensures WellFormed(SaveOutcome(h, rules, raw, newId).rules)
    ensures Closest(TableOf(SaveOutcome(h, rules, raw, newId).rules), Lower(name)) == Closest(TableOf(rules), Lower(name))
  {
    NormalizeRuleNormal(h, raw);
    StoreKeepsWellFormed(rules, NormalizeRule(h, raw).value, newId);
    StoreAffectsOnlyReported(rules, NormalizeRule(h, raw).value, newId, name);
  }

  lemma SaveReportsNormalDomains(h: Hosts, rules: seq<Rule>, raw: Rule, newId: Option<int>)
    requires WellFormed(rules) && SaveOutcome(h, rules, raw, newId).Changed? && (newId.Some? ==> FreshId(rules, newId.value))
    ensures WellFormed(SaveOutcome(h, rules, raw, newId).rules)
    ensures forall d :: d in SaveOutcome(h, rules, raw, newId).domains ==> d != [] && Lower(d) == d
  {
    NormalizeRuleNormal(h, raw);
    StoreKeepsWellFormed(rules, NormalizeRule(h, raw).value, newId);
  }

  lemma DeleteAffectsOnlyReported(rules: seq<Rule>, id: int, name: Name)
    requires WellFormed(rules) && DeleteOutcome(rules, id, true).Changed?
    requires forall d :: d in DeleteOutcome(rules, id, true).domains ==> !AtOrBelow(Lower(name), d)
    ensures Closest(TableOf(DeleteOutcome(rules, id, true).rules), Lower(name)) == Closest(TableOf(rules), Lower(name))
  {
    var out := DeleteOutcome(rules, id, true);
    DeleteKeepsWellFormed(rules, id, true);
    var k := IndexOfId(rules, id);
    forall i | 0 <= i < |rules| && rules[i].domain !in out.domains
      ensures rules[i] in out.rules
    {
      assert i < k ==> out.rules[i] == rules[i];
      assert i > k ==> out.rules[i - 1] == rules[i];
    }
    AffectsOnlyReported(rules, out.rules, out.domains, Lower(name));
  }

  // ---------- what a save does ----------

  /** What a rule must be: no wildcard, a host name, a short single line as description, and
      one to four usable upstreams. */
  ghost predicate GoodRule(h: Hosts, r: Rule) {
    && !(r.domain != [] && r.domain[0] != [] && r.domain[0][0] == '*')
    && Filtering.Plain(Lower(r.domain)) && |r.description| <= 200 && OneLine(r.description)
    && 1 <= |r.upstreams| <= 4 && GoodUpstreams(h, r.upstreams)
  }

  /** What becomes of it: the domain in lower case, the upstreams in standard form. */
  ghost predicate NormalOf(h: Hosts, raw: Rule, r: Rule) {
    && r == raw.(domain := Lower(raw.domain), upstreams := r.upstreams) && |r.upstreams| == |raw.upstreams|
    && forall i :: 0 <= i < |r.upstreams| ==> h.read(raw.upstreams[i]) == Some(r.upstreams[i])
  }

  lemma NormalizeRuleMeans(h: Hosts, raw: Rule)
    ensures NormalizeRule(h, raw).Some? <==> GoodRule(h, raw)
    ensures NormalizeRule(h, raw).Some? ==> NormalOf(h, raw, NormalizeRule(h, raw).value)
  {
    UpstreamsMean(h, raw.upstreams);
    if raw.domain != [] && raw.domain[0] == "*" {
      assert raw.domain[0][0] == '*';
    }
    NoStarIsKept(raw.domain);
  }

  lemma NoStarIsKept(d: Name)
    ensures !(d != [] && d[0] == "*") ==> Filtering.StripStar(Lower(d)) == Lower(d)
  {
    Filtering.StarIsLower(d);
  }

  /** Some rule, other than the one to be replaced, has the domain. */
  ghost predicate HasDomain(rules: seq<Rule>, id: int, d: Name) {
    exists i :: 0 <= i < |rules| && rules[i].domain == d && (id == 0 || rules[i].id != id)
  }

  /** What a save does with a good rule: refuses a domain that is taken, a number that is
      unknown, one rule too many and what cannot be stored, in this order; otherwise the
      rule is in the list under its number and every other rule is kept. */
  lemma StoreMeans(rules: seq<Rule>, r: Rule, newId: Option<int>)
    requires WellFormed(rules)
    ensures var out := StoreOutcome(rules, r, newId);
            && (out == Exists <==> HasDomain(rules, r.id, r.domain))
            && (out == NotFound <==> !HasDomain(rules, r.id, r.domain) && r.id != 0 && forall x :: x in rules ==> x.id != r.id)
            && (out == TooMany <==> !HasDomain(rules, r.id, r.domain) && r.id == 0 && |rules| >= 256)
            && (out.StoreFailed? ==> newId == None) && out != Invalid
            && (newId == None ==> !out.Changed?)
    ensures var out := StoreOutcome(rules, r, newId);
            out.Changed? ==>
              var saved := if r.id == 0 then r.(id := newId.value) else r;
              && saved in out.rules && |out.rules| == |rules| + (if r.id == 0 then 1 else 0)
              && (forall x :: x in rules && (r.id == 0 || x.id != r.id) ==> x in out.rules)
              && (forall x :: x in out.rules && x != saved ==> x in rules)
  {
    var out := StoreOutcome(rules, r, newId);
    if out.Changed? {
      var saved := if r.id == 0 then r.(id := newId.value) else r;
      if r.id == 0 {
        assert out.rules[|rules|] == saved;
      } else {
        var k := IndexOfId(rules, r.id);
        assert out.rules[k] == saved;
        forall x | x in rules && x.id != r.id ensures x in out.rules {
          var i :| 0 <= i < |rules| && rules[i] == x;
          assert out.rules[i] == x;
        }
      }
    }
    if r.id != 0 && IndexOfId(rules, r.id) < 0 {
      assert forall x :: x in rules ==> x.id != r.id;
    }
  }

  /** A delete takes away the rule of the number, if there is one, and no other. */
  lemma DeleteMeans(rules: seq<Rule>, id: int, stored: bool)
    requires WellFormed(rules)
    ensures var out := DeleteOutcome(rules, id, stored);
            && (out == NotFound <==> forall x :: x in rules ==> x.id != id)
            && (out.Changed? <==> stored && exists x :: x in rules && x.id == id)
            && (out.Changed? ==> forall x :: x in out.rules <==> x in rules && x.id != id)
  {
    var k := IndexOfId(rules, id);
    if k >= 0 {
      assert rules[k] in rules;
      var rest := rules[..k] + rules[k + 1..];
      forall x | x in rules && x.id != id ensures x in rest {
        var i :| 0 <= i < |rules| && rules[i] == x;
        assert i < k ==> rest[i] == x;
        assert i > k ==> rest[i - 1] == x;
      }
      forall i | 0 <= i < |rest| ensures rest[i] in rules && rest[i].id != id {
        assert i < k ==> rest[i] == rules[i];
        assert i >= k ==> rest[i] == rules[i + 1];
      }
    }
  }

  // ---------- the service ----------

  class Service {
    var rules: seq<Rule>
    var current: Table

    ghost predicate Valid()
      reads this
    {
      WellFormed(rules) && current == TableOf(rules)
    }

    /** Stores a rule and returns the outcome, whose domains are to be invalidated. */
    method Save(h: Hosts, raw: Rule, newId: Option<int>) returns (out: Outcome)
      requires Valid() && (newId.Some? ==> FreshId(rules, newId.value))
      modifies this
      ensures Valid() && out == SaveOutcome(h, old(rules), raw, newId)
      ensures rules == if out.Changed? then out.rules else old(rules)
    {
      var normal := Normalize(h, raw);
      if normal.None? {
        return Invalid;
      }
      NormalizeRuleNormal(h, raw);
      out := Store(normal.value, newId);
    }

    method Store(r: Rule, newId: Option<int>) returns (out: Outcome)
      requires Valid() && NormalForm(r) && (newId.Some? ==> FreshId(rules, newId.value))
      modifies this
      ensures Valid() && out == StoreOutcome(old(rules), r, newId)
      ensures rules == if out.Changed? then out.rules else old(rules)
    {
      StoreKeepsWellFormed(rules, r, newId);
      var index := -1;
      for i := 0 to |rules|
        invariant -1 <= index < i
        invariant index >= 0 ==> rules[index].id == r.id && r.id != 0
        invariant index < 0 && r.id != 0 ==> forall j :: 0 <= j < i ==> rules[j].id != r.id
        invariant forall j :: 0 <= j < i ==> (rules[j].id == r.id && r.id != 0) || rules[j].domain != r.domain
      {
        if rules[i].id == r.id && r.id != 0 {
          index := i;
        } else if rules[i].domain == r.domain {
          return Exists;
        }
      }
      if r.id != 0 && index < 0 {
        return NotFound;
      }
      if r.id == 0 && |rules| >= MAX_RULES {
        return TooMany;
      }
      if newId.None? {
        return StoreFailed;
      }
      var candidate, domains := rules, [r.domain];
      if index < 0 {
        candidate := candidate + [r.(id := newId.value)];
      } else {
        assert index == IndexOfId(rules, r.id);
        if candidate[index].domain != r.domain {
          domains := domains + [candidate[index].domain];
        }
        candidate := candidate[index := r];
      }
      rules := candidate;
      current := Compile(candidate);
      return Changed(candidate, domains);
    }

    method Delete(id: int, stored: bool) returns (out: Outcome)
      requires Valid()
      modifies this
      ensures Valid() && out == DeleteOutcome(old(rules), id, stored)
      ensures rules == if out.Changed? then out.rules else old(rules)
    {
      DeleteKeepsWellFormed(rules, id, stored);
      var k := IndexOfId(rules, id);
      if k < 0 {
        return NotFound;
      }
      if !stored {
        return StoreFailed;
      }
      var domain := rules[k].domain;
      rules := rules[..k] + rules[k + 1..];
      current := Compile(rules);
      return Changed(rules, [domain]);
    }
  }
}
