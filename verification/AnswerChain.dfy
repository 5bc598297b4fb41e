/** The check every upstream reply must pass, and the alias chains it lets through. */
module AnswerChain {
  import opened Dns

  const MAX_ALIASES := 16

  function NotSigned(): RR -> bool { (rr: RR) => rr.Type() != TYPE_RRSIG }

  // ---------- the shape of an acceptable answer ----------

  /** The name reached after following the first `i` aliases. */
  function NameAt(start: Name, rs: seq<RR>, i: nat): Name {
    if 0 < i <= |rs| && rs[i - 1].data.Alias? then Lower(rs[i - 1].data.target) else start
  }

  /** At most sixteen aliases, each owned by the name the previous one leads to and
      none leading back, then only data of the last name. A question for the alias
      itself takes at most one. */
  predicate AliasesThenData(start: Name, qtype: nat, rs: seq<RR>, k: nat) {
    && k <= |rs| && k <= MAX_ALIASES
    && (qtype == TYPE_CNAME ==> k <= 1)
    && (forall i :: 0 <= i < k ==> rs[i].data.Alias? && Lower(rs[i].owner) == NameAt(start, rs, i))
    && (forall i, j :: 0 <= i < j <= k ==> NameAt(start, rs, i) != NameAt(start, rs, j))
    && (forall i :: k <= i < |rs| ==> !rs[i].data.Alias? && Lower(rs[i].owner) == NameAt(start, rs, k))
  }

  ghost predicate Acceptable(start: Name, qtype: nat, rs: seq<RR>) {
    exists k: nat :: AliasesThenData(start, qtype, rs, k)
  }

  ghost predicate ValidAnswer(q: Msg, answer: seq<RR>) {
    |q.questions| == 1
    && Acceptable(Lower(q.questions[0].name), q.questions[0].qtype, Filter(NotSigned(), answer))
  }

  ghost predicate SeenNames(start: Name, rs: seq<RR>, k: nat, seen: set<Name>) {
    forall x :: x in seen <==> exists i :: 0 <= i <= k && NameAt(start, rs, i) == x
  }

  /** What the loop knows after the records seen so far. */
  ghost predicate Walked(start: Name, qtype: nat, rs: seq<RR>, current: Name, seen: set<Name>, aliases: nat, terminal: bool) {
    && AliasesThenData(start, qtype, rs, aliases)
    && current == NameAt(start, rs, aliases)
    && SeenNames(start, rs, aliases, seen)
    && (terminal <==> aliases < |rs| || (qtype == TYPE_CNAME && aliases > 0))
  }

  lemma WalkRejects(start: Name, qtype: nat, rs: seq<RR>, rr: RR, more: seq<RR>,
                    current: Name, seen: set<Name>, aliases: nat, terminal: bool)
    requires Walked(start, qtype, rs, current, seen, aliases, terminal)
    requires || Lower(rr.owner) != current
             || (rr.data.Alias? && terminal)
             || (rr.data.Alias? && (aliases + 1 > MAX_ALIASES || Lower(rr.data.target) in seen))
    ensures !Acceptable(start, qtype, rs + [rr] + more)
  {
    var full := rs + [rr] + more;
    forall k
      ensures !AliasesThenData(start, qtype, full, k)
    {
      RejectWith(start, qtype, rs, rr, full, current, seen, aliases, terminal, k);
    }
  }

  /** Names do not depend on what follows. */
  lemma SameNames(start: Name, rs: seq<RR>, full: seq<RR>)
    requires |rs| <= |full| && forall i :: 0 <= i < |rs| ==> full[i] == rs[i]
    ensures forall i :: 0 <= i <= |rs| ==> NameAt(start, full, i) == NameAt(start, rs, i)
  {
  }

  /** Where the aliases end is settled by the records already seen, if any is no alias. */
  lemma RejectLength(start: Name, qtype: nat, rs: seq<RR>, full: seq<RR>, aliases: nat, k: nat)
    requires AliasesThenData(start, qtype, rs, aliases) && |full| > |rs| && forall i :: 0 <= i < |rs| ==> full[i] == rs[i]
    requires k < aliases || (aliases < |rs| && k != aliases)
    ensures !AliasesThenData(start, qtype, full, k)
  {
    if k < aliases {
      assert full[k].data.Alias?;
    } else {
      assert !full[aliases].data.Alias?;
    }
  }

  lemma RejectWith(start: Name, qtype: nat, rs: seq<RR>, rr: RR, full: seq<RR>,
                   current: Name, seen: set<Name>, aliases: nat, terminal: bool, k: nat)
    requires Walked(start, qtype, rs, current, seen, aliases, terminal)
    requires || Lower(rr.owner) != current
             || (rr.data.Alias? && terminal)
             || (rr.data.Alias? && (aliases + 1 > MAX_ALIASES || Lower(rr.data.target) in seen))
    requires |full| > |rs| && full[|rs|] == rr && forall i :: 0 <= i < |rs| ==> full[i] == rs[i]
    ensures !AliasesThenData(start, qtype, full, k)
  {
    SameNames(start, rs, full);
    if k < aliases || (aliases < |rs| && k != aliases) {
      RejectLength(start, qtype, rs, full, aliases, k);
    } else if k == aliases {
      assert rr.data.Alias? || Lower(full[|rs|].owner) != NameAt(start, full, aliases);
    } else {
      RejectAlias(start, qtype, rs, rr, full, seen, aliases, k);
    }
  }

  /** All records so far are aliases: the next one cannot be another. */
  lemma RejectAlias(start: Name, qtype: nat, rs: seq<RR>, rr: RR, full: seq<RR>, seen: set<Name>, aliases: nat, k: nat)
    requires aliases == |rs| < k && SeenNames(start, rs, aliases, seen)
    requires || Lower(rr.owner) != NameAt(start, rs, aliases)
             || (rr.data.Alias? && qtype == TYPE_CNAME && aliases > 0)
             || (rr.data.Alias? && (aliases + 1 > MAX_ALIASES || Lower(rr.data.target) in seen))
    requires |full| > |rs| && full[|rs|] == rr && forall i :: 0 <= i <= |rs| ==> NameAt(start, full, i) == NameAt(start, rs, i)
    ensures !AliasesThenData(start, qtype, full, k)
  {
    if rr.data.Alias? && Lower(rr.data.target) in seen {
      var i :| 0 <= i <= aliases && NameAt(start, rs, i) == Lower(rr.data.target);
      assert NameAt(start, full, i) == NameAt(start, full, |rs| + 1);
    }
  }

  lemma WalkAlias(start: Name, qtype: nat, rs: seq<RR>, rr: RR,
                  current: Name, seen: set<Name>, aliases: nat, terminal: bool)
    requires Walked(start, qtype, rs, current, seen, aliases, terminal)
    requires Lower(rr.owner) == current && rr.data.Alias? && !terminal
    requires aliases + 1 <= MAX_ALIASES && Lower(rr.data.target) !in seen
    ensures Walked(start, qtype, rs + [rr], Lower(rr.data.target), seen + {Lower(rr.data.target)},
                   aliases + 1, qtype == TYPE_CNAME)
  {
    var next, target := rs + [rr], Lower(rr.data.target);
    SameNames(start, rs, next);
    assert NameAt(start, next, aliases + 1) == target;
    SeenOneMore(start, rs, next, seen, target, aliases);
  }

  lemma SeenOneMore(start: Name, rs: seq<RR>, next: seq<RR>, seen: set<Name>, target: Name, aliases: nat)
    requires SeenNames(start, rs, aliases, seen) && NameAt(start, next, aliases + 1) == target
    requires forall i :: 0 <= i <= aliases ==> NameAt(start, next, i) == NameAt(start, rs, i)
    ensures SeenNames(start, next, aliases + 1, seen + {target})
  {
    forall x
      ensures x in seen + {target} <==> exists i :: 0 <= i <= aliases + 1 && NameAt(start, next, i) == x
    {
      if x in seen {
        var i :| 0 <= i <= aliases && NameAt(start, rs, i) == x;
        assert NameAt(start, next, i) == x;
      }
    }
  }

  lemma WalkData(start: Name, qtype: nat, rs: seq<RR>, rr: RR,
                 current: Name, seen: set<Name>, aliases: nat, terminal: bool)
    requires Walked(start, qtype, rs, current, seen, aliases, terminal)
    requires Lower(rr.owner) == current && !rr.data.Alias?
    ensures Walked(start, qtype, rs + [rr], current, seen, aliases, true)
  {
    var next := rs + [rr];
    SameNames(start, rs, next);
    assert forall i :: 0 <= i <= aliases ==> NameAt(start, next, i) == NameAt(start, rs, i);
  }

  /** Walks the answer once and accepts exactly the acceptable ones. */
  method ValidateAnswerChain(q: Msg, answer: seq<RR>) returns (ok: bool)
    ensures ok <==> ValidAnswer(q, answer)
  {
    if |q.questions| != 1 {
      return false;
    }
    var start, qtype := Lower(q.questions[0].name), q.questions[0].qtype;
    var current := start;
    var seen := {current};
    var aliases := 0;
    var terminal := false;
    ghost var rs := [];
    assert NameAt(start, rs, 0) == start;
    for i := 0 to |answer|
      invariant rs == Filter(NotSigned(), answer[..i])
      invariant Walked(start, qtype, rs, current, seen, aliases, terminal)
    {
      var rr := answer[i];
      ghost var more := Filter(NotSigned(), answer[i + 1..]);
      FilterSplit(NotSigned(), answer, i);
      if rr.Type() == TYPE_RRSIG {
        continue;
      }
      if Lower(rr.owner) != current {
        WalkRejects(start, qtype, rs, rr, more, current, seen, aliases, terminal);
        return false;
      }
      if !rr.data.Alias? {
        WalkData(start, qtype, rs, rr, current, seen, aliases, terminal);
        terminal := true;
        rs := rs + [rr];
        continue;
      }
      if terminal {
        WalkRejects(start, qtype, rs, rr, more, current, seen, aliases, terminal);
        return false;
      }
      var target := Lower(rr.data.target);
      if aliases + 1 > MAX_ALIASES || target in seen {
        WalkRejects(start, qtype, rs, rr, more, current, seen, aliases, terminal);
        return false;
      }
      WalkAlias(start, qtype, rs, rr, current, seen, aliases, terminal);
      aliases := aliases + 1;
      seen := seen + {target};
      current := target;
      terminal := qtype == TYPE_CNAME;
      rs := rs + [rr];
    }
    assert answer[..|answer|] == answer;
    return true;
  }

  // ---------- alias chains ----------

  /** Records that all belong to one name, signatures aside. */
  predicate DataOf(name: Name, rrs: seq<RR>) {
    forall rr :: rr in rrs ==> rr.Type() == TYPE_RRSIG || (!rr.data.Alias? && Lower(rr.owner) == name)
  }

  /** Aliases that lead from `name` to the owner of everything after them. */
  predicate Chain(name: Name, rrs: seq<RR>)
    decreases |rrs|
  {
    rrs == []
    || (if rrs[0].Type() == TYPE_RRSIG then Chain(name, rrs[1..])
        else && Lower(rrs[0].owner) == name
             && if rrs[0].data.Alias? then Chain(Lower(rrs[0].data.target), rrs[1..]) else DataOf(name, rrs[1..]))
  }

  /** Where a run of aliases leads. */
  function Tip(name: Name, rrs: seq<RR>): Name {
    if rrs == [] then name
    else if rrs[|rrs| - 1].data.Alias? then Lower(rrs[|rrs| - 1].data.target)
    else name
  }

  predicate AllAliases(rrs: seq<RR>) { forall rr :: rr in rrs ==> rr.data.Alias? }

  /** A chain from the question that ends in an alias only if nothing else is in it or
      the alias itself was asked for. */
  predicate ChainAnswer(q: Question, rrs: seq<RR>) {
    && Chain(Lower(q.name), rrs)
    && (rrs != [] && q.qtype != TYPE_CNAME && rrs[|rrs| - 1].data.Alias? ==> AllAliases(rrs))
  }

  /** A chain of aliases continued by a chain from its tip is a chain. */
  lemma {:induction false} ChainsJoin(name: Name, a: seq<RR>, b: seq<RR>)
    requires AllAliases(a) && Chain(name, a) && Chain(Tip(name, a), b)
    ensures Chain(name, a + b)
    decreases |a|
  {
    if a == [] {
      assert a + b == b;
    } else {
      var next := Lower(a[0].data.target);
      assert (a + b)[1..] == a[1..] + b;
      ChainsJoin(next, a[1..], b);
    }
  }

  lemma {:induction false} DataIsChain(name: Name, rrs: seq<RR>)
    requires DataOf(name, rrs)
    ensures Chain(name, rrs)
  {
    if rrs != [] {
      assert rrs[0] in rrs;
      DataIsChain(name, rrs[1..]);
    }
  }

  lemma AcceptableTail(start: Name, qtype: nat, rs: seq<RR>)
    requires rs != [] && rs[0].data.Alias? && Acceptable(start, qtype, rs)
    ensures Lower(rs[0].owner) == start && Acceptable(Lower(rs[0].data.target), qtype, rs[1..])
  {
    var next, rest := Lower(rs[0].data.target), rs[1..];
    var k: nat :| AliasesThenData(start, qtype, rs, k);
    assert k > 0 && NameAt(start, rs, 0) == start;
    forall i | 0 <= i < k
      ensures NameAt(next, rest, i) == NameAt(start, rs, i + 1)
    {
      assert rs[i].data.Alias?;
      assert i > 0 ==> rest[i - 1] == rs[i];
    }
    assert AliasesThenData(next, qtype, rest, k - 1);
  }

  lemma AcceptableData(start: Name, qtype: nat, answer: seq<RR>)
    requires Acceptable(start, qtype, Filter(NotSigned(), answer)) && answer != []
    requires answer[0].Type() != TYPE_RRSIG && !answer[0].data.Alias?
    ensures Lower(answer[0].owner) == start && DataOf(start, answer[1..])
  {
    var rs := Filter(NotSigned(), answer);
    var k: nat :| AliasesThenData(start, qtype, rs, k);
    assert rs[0] == answer[0] && k == 0;
    FilterMembers(NotSigned(), answer);
    forall rr | rr in answer[1..] && rr.Type() != TYPE_RRSIG
      ensures !rr.data.Alias? && Lower(rr.owner) == start
    {
      assert rr in rs;
    }
  }

  /** Whatever the check accepts is a chain from the question. */
  lemma {:induction false} AcceptableIsChain(start: Name, qtype: nat, answer: seq<RR>)
    requires Acceptable(start, qtype, Filter(NotSigned(), answer))
    ensures Chain(start, answer)
    decreases |answer|
  {
    if answer != [] {
      if answer[0].Type() == TYPE_RRSIG {
        AcceptableIsChain(start, qtype, answer[1..]);
      } else if answer[0].data.Alias? {
        AcceptableTail(start, qtype, Filter(NotSigned(), answer));
        assert Filter(NotSigned(), answer)[1..] == Filter(NotSigned(), answer[1..]);
        AcceptableIsChain(Lower(answer[0].data.target), qtype, answer[1..]);
      } else {
        AcceptableData(start, qtype, answer);
      }
    }
  }

  /** Dropping records other than aliases does not break a chain. */
  lemma {:induction false} FilteredChain(p: RR -> bool, name: Name, rrs: seq<RR>)
    requires Chain(name, rrs)
    requires forall rr :: rr in rrs && rr.data.Alias? ==> p(rr)
    ensures Chain(name, Filter(p, rrs))
    decreases |rrs|
  {
    if rrs != [] {
      assert rrs[0] in rrs;
      var rest := Filter(p, rrs[1..]);
      if rrs[0].Type() == TYPE_RRSIG {
        FilteredChain(p, name, rrs[1..]);
        if p(rrs[0]) {
          assert Filter(p, rrs)[1..] == rest;
        }
      } else if rrs[0].data.Alias? {
        FilteredChain(p, Lower(rrs[0].data.target), rrs[1..]);
        assert Filter(p, rrs)[1..] == rest;
      } else {
        FilterMembers(p, rrs[1..]);
        if p(rrs[0]) {
          assert Filter(p, rrs)[1..] == rest;
        } else {
          DataIsChain(name, rest);
        }
      }
    }
  }

  /** Changing TTLs does not break a chain. */
  lemma {:induction false} SameOwnersSameChain(name: Name, a: seq<RR>, b: seq<RR>)
    requires |a| == |b| && forall i :: 0 <= i < |a| ==> b[i] == a[i].(ttl := b[i].ttl)
    requires Chain(name, a)
    ensures Chain(name, b)
    decreases |a|
  {
    if a != [] {
      assert b[0] == a[0].(ttl := b[0].ttl);
      if a[0].Type() == TYPE_RRSIG {
        SameOwnersSameChain(name, a[1..], b[1..]);
      } else if a[0].data.Alias? {
        SameOwnersSameChain(Lower(a[0].data.target), a[1..], b[1..]);
      } else {
        forall rr | rr in b[1..]
          ensures rr.Type() == TYPE_RRSIG || (!rr.data.Alias? && Lower(rr.owner) == name)
        {
          var i :| 0 <= i < |b[1..]| && b[1..][i] == rr;
          assert a[1..][i] in a[1..] && b[i + 1] == a[i + 1].(ttl := b[i + 1].ttl);
        }
      }
    }
  }

  // ---------- and which chains are accepted ----------

  /** The first `k` records are the aliases. */
  predicate LeadingAliases(rs: seq<RR>, k: nat) {
    k <= |rs| && (forall i :: 0 <= i < k ==> rs[i].data.Alias?) && forall i :: k <= i < |rs| ==> !rs[i].data.Alias?
  }

  lemma NameShift(start: Name, rs: seq<RR>, i: nat)
    requires rs != [] && rs[0].data.Alias? && i < |rs| && (i > 0 ==> rs[i].data.Alias?)
    ensures NameAt(Lower(rs[0].data.target), rs[1..], i) == NameAt(start, rs, i + 1)
  {
    if i > 0 {
      assert rs[1..][i - 1] == rs[i];
    }
  }

  /** In a chain every alias belongs to the name the one before leads to, and all else to
      the last name. */
  lemma {:induction false} ChainOwners(start: Name, rs: seq<RR>, k: nat, i: nat)
    requires Chain(start, rs) && LeadingAliases(rs, k) && i < |rs| && forall rr :: rr in rs ==> rr.Type() != TYPE_RRSIG
    ensures Lower(rs[i].owner) == NameAt(start, rs, if i < k then i else k)
    decreases |rs|
  {
    assert rs[0] in rs;
    if k == 0 {
      if i > 0 {
        assert rs[1..][i - 1] in rs[1..] && rs[i] in rs;
      }
    } else if i > 0 {
      var next, rest := Lower(rs[0].data.target), rs[1..];
      assert LeadingAliases(rest, k - 1);
      ChainOwners(next, rest, k - 1, i - 1);
      NameShift(start, rs, if i < k then i - 1 else k - 1);
    }
  }

  /** Where the aliases end is determined. */
  lemma SameEnd(start: Name, qtype: nat, rs: seq<RR>, k: nat, n: nat)
    requires LeadingAliases(rs, k) && AliasesThenData(start, qtype, rs, n)
    ensures n == k
  {
    assert n < |rs| ==> !rs[n].data.Alias?;
    assert k < |rs| ==> !rs[k].data.Alias?;
  }

  predicate NoNameTwice(start: Name, rs: seq<RR>, k: nat) {
    forall i, j :: 0 <= i < j <= k ==> NameAt(start, rs, i) != NameAt(start, rs, j)
  }

  lemma ChainIsAccepted(start: Name, qtype: nat, rs: seq<RR>, k: nat)
    requires (forall rr :: rr in rs ==> rr.Type() != TYPE_RRSIG) && LeadingAliases(rs, k)
    requires Chain(start, rs) && k <= 16 && (qtype == 5 ==> k <= 1) && NoNameTwice(start, rs, k)
    ensures AliasesThenData(start, qtype, rs, k)
  {
    forall i | 0 <= i < |rs| ensures Lower(rs[i].owner) == NameAt(start, rs, if i < k then i else k) {
      ChainOwners(start, rs, k, i);
    }
  }

  /** Which answers without signatures are accepted: exactly the chains of at most sixteen
      aliases that visit no name twice; of at most one if the alias itself was asked for. */
  lemma AcceptedExactly(start: Name, qtype: nat, rs: seq<RR>, k: nat)
    requires (forall rr :: rr in rs ==> rr.Type() != TYPE_RRSIG) && LeadingAliases(rs, k)
    ensures Acceptable(start, qtype, rs) <==> Chain(start, rs) && k <= 16 && (qtype == 5 ==> k <= 1) && NoNameTwice(start, rs, k)
  {
    if Acceptable(start, qtype, rs) {
      FilterAll(NotSigned(), rs);
      AcceptableIsChain(start, qtype, rs);
      var n: nat :| AliasesThenData(start, qtype, rs, n);
      SameEnd(start, qtype, rs, k, n);
    }
    if Chain(start, rs) && k <= 16 && (qtype == 5 ==> k <= 1) && NoNameTwice(start, rs, k) {
      ChainIsAccepted(start, qtype, rs, k);
    }
  }
}
