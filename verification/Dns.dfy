/** Domain names, resource records and messages shared by every component.

    A name is the sequence of its textual labels, leaf first: "www.example." is
    ["www", "example"] and the root is []. Taking the parent of a name drops its
    first label. A TTL is a 32-bit unsigned number, so any arithmetic on it wraps
    unless it is shown not to. */
module Dns {

  datatype Option<+T> = None | Some(value: T)

  // ---------- names ----------

  type Label = string
  type Name = seq<Label>

  function LowerChar(c: char): char {
    if 'A' <= c <= 'Z' then (c as int + 32) as char else c
  }

  function LowerLabel(l: Label): Label {
    seq(|l|, i requires 0 <= i < |l| => LowerChar(l[i]))
  }

  function Lower(n: Name): Name {
    seq(|n|, i requires 0 <= i < |n| => LowerLabel(n[i]))
  }

  /** Names are equal in lower case exactly if they differ in the case of ASCII letters
      only. */
  predicate SameLetters(a: char, b: char) {
    a == b || ('A' <= a <= 'Z' && b as int == a as int + 32) || ('A' <= b <= 'Z' && a as int == b as int + 32)
  }

  lemma LowerMeans(a: Name, b: Name)
    ensures Lower(a) == Lower(b) <==>
              |a| == |b| && forall i :: 0 <= i < |a| ==> |a[i]| == |b[i]| && forall j :: 0 <= j < |a[i]| ==> SameLetters(a[i][j], b[i][j])
  {
    if Lower(a) == Lower(b) {
      assert |a| == |Lower(a)| == |Lower(b)| == |b|;
      forall i | 0 <= i < |a|
        ensures |a[i]| == |b[i]| && forall j :: 0 <= j < |a[i]| ==> SameLetters(a[i][j], b[i][j])
      {
        assert Lower(a)[i] == Lower(b)[i];
        LabelMeans(a[i], b[i]);
      }
    } else if |a| == |b| {
      var i :| 0 <= i < |a| && Lower(a)[i] != Lower(b)[i];
      LabelMeans(a[i], b[i]);
    }
  }

  lemma LabelMeans(a: Label, b: Label)
    ensures LowerLabel(a) == LowerLabel(b) <==> |a| == |b| && forall j :: 0 <= j < |a| ==> SameLetters(a[j], b[j])
  {
    if LowerLabel(a) == LowerLabel(b) {
      assert |a| == |LowerLabel(a)| == |LowerLabel(b)| == |b|;
      forall j | 0 <= j < |a| ensures SameLetters(a[j], b[j]) {
        assert LowerLabel(a)[j] == LowerLabel(b)[j];
      }
    }
  }

  lemma LowerIdempotent(n: Name)
    ensures Lower(Lower(n)) == Lower(n)
  {
    forall i | 0 <= i < |n|
      ensures Lower(Lower(n))[i] == Lower(n)[i]
    {
      assert LowerLabel(LowerLabel(n[i])) == LowerLabel(n[i]);
    }
  }

  /** Whether `name` is `top` or a name under it. */
  predicate AtOrBelow(name: Name, top: Name) {
    |top| <= |name| && name[|name| - |top|..] == top
  }

  lemma AtOrBelowTransitive(a: Name, b: Name, c: Name)
    requires AtOrBelow(a, b) && AtOrBelow(b, c)
    ensures AtOrBelow(a, c)
  {
    assert a[|a| - |c|..] == a[|a| - |b|..][|b| - |c|..];
  }

  // ---------- tables keyed by name ----------

  /** The entry of the closest name at or above `n`, the root excluded. */
  function Closest<T>(t: map<Name, T>, n: Name): Option<T> {
    if n == [] then None else if n in t then Some(t[n]) else Closest(t, n[1..])
  }

  /** Walking up finds the longest key the name is at or below, and nothing exactly
      when there is none. */
  lemma {:induction false} ClosestIsLongest<T>(t: map<Name, T>, n: Name)
    requires [] !in t
    ensures Closest(t, n).Some? ==>
              exists d :: d in t && AtOrBelow(n, d) && Closest(t, n).value == t[d]
                       && forall x :: x in t && AtOrBelow(n, x) ==> |x| <= |d|
    ensures Closest(t, n).None? ==> forall x :: x in t ==> !AtOrBelow(n, x)
  {
    if n == [] {
    } else if n in t {
      assert AtOrBelow(n, n);
    } else {
      ClosestIsLongest(t, n[1..]);
      forall x | x in t
        ensures AtOrBelow(n, x) <==> AtOrBelow(n[1..], x)
      {
      }
    }
  }

  /** Two tables that differ only at some keys agree on every name that is neither at
      nor below one of them. */
  lemma {:induction false} ChangeIsLocal<T>(t: map<Name, T>, u: map<Name, T>, keys: seq<Name>, n: Name)
    requires forall d :: d !in keys ==> (d in t <==> d in u) && (d in t ==> t[d] == u[d])
    requires forall d :: d in keys ==> !AtOrBelow(n, d)
    ensures Closest(t, n) == Closest(u, n)
  {
    if n != [] {
      assert AtOrBelow(n, n);
      forall d | d in keys
        ensures !AtOrBelow(n[1..], d)
      {
      }
      ChangeIsLocal(t, u, keys, n[1..]);
    }
  }

  /** The walk itself: the first name with an entry wins. */
  method WalkUp<T>(t: map<Name, T>, n: Name) returns (r: Option<T>)
    ensures r == Closest(t, n)
  {
    var name := n;
    while name != []
      invariant Closest(t, n) == Closest(t, name)
      decreases |name|
    {
      if name in t {
        return Some(t[name]);
      }
      name := name[1..];
    }
    return None;
  }

  // ---------- records ----------

  type U32 = x: int | 0 <= x < 0x1_0000_0000

  const TYPE_A := 1
  const TYPE_NS := 2
  const TYPE_CNAME := 5
  const TYPE_SOA := 6
  const TYPE_PTR := 12
  const TYPE_MX := 15
  const TYPE_TXT := 16
  const TYPE_AAAA := 28
  const TYPE_OPT := 41
  const TYPE_DS := 43
  const TYPE_RRSIG := 46
  const TYPE_NSEC := 47
  const TYPE_DNSKEY := 48
  const TYPE_NSEC3 := 50

  const CLASS_INET := 1

  const SUCCESS := 0
  const SERVER_FAILURE := 2
  const NAME_ERROR := 3
  const REFUSED := 5

  /** The record kinds whose contents the server looks into; all others are opaque. */
  datatype RData =
    | Alias(target: Name)
    | Authority(primary: Name, contact: Name, serial: U32, minTtl: U32)
    | Edns(version: nat, dnssecOk: bool)
    | Raw(kind: nat, content: Content)

  /** Opaque record data: its texts and its number, such as a mail preference. */
  datatype Content = Content(texts: seq<string>, number: nat)

  datatype RR = RR(owner: Name, ttl: U32, data: RData) {
    function Type(): nat {
      match data
      case Alias(_) => TYPE_CNAME
      case Authority(_, _, _, _) => TYPE_SOA
      case Edns(_, _) => TYPE_OPT
      case Raw(kind, _) => kind
    }
  }

  // ---------- messages ----------

  datatype Question = Question(name: Name, qtype: nat, qclass: nat)

  datatype Msg = Msg(
    id: nat, opcode: nat, response: bool, authoritative: bool, truncated: bool,
    recursionDesired: bool, recursionAvailable: bool, authenticated: bool, checkingDisabled: bool,
    rcode: nat, questions: seq<Question>, answer: seq<RR>, ns: seq<RR>, extra: seq<RR>)

  /** An empty reply to `q` with the given response code. */
  function Reply(q: Msg, rcode: nat): Msg {
    Msg(q.id, q.opcode, true, false, false,
        q.opcode == 0 && q.recursionDesired, false, false, q.opcode == 0 && q.checkingDisabled,
        rcode, if q.questions == [] then [] else [q.questions[0]], [], [], [])
  }

  // ---------- sequences ----------

  function Filter<T>(p: T -> bool, s: seq<T>): seq<T> {
    if s == [] then []
    else if p(s[0]) then [s[0]] + Filter(p, s[1..]) else Filter(p, s[1..])
  }

  lemma {:induction false} FilterMembers<T>(p: T -> bool, s: seq<T>)
    ensures forall x :: x in Filter(p, s) <==> x in s && p(x)
    ensures |Filter(p, s)| <= |s|
  {
    if s != [] {
      FilterMembers(p, s[1..]);
      assert s == [s[0]] + s[1..];
    }
  }

  lemma {:induction false} FilterConcat<T>(p: T -> bool, a: seq<T>, b: seq<T>)
    ensures Filter(p, a + b) == Filter(p, a) + Filter(p, b)
  {
    if a == [] {
      assert a + b == b;
    } else {
      FilterConcat(p, a[1..], b);
      assert (a + b)[1..] == a[1..] + b;
    }
  }

  /** What one more element adds, and what is left after it. */
  lemma {:induction false} FilterSplit<T>(p: T -> bool, s: seq<T>, i: nat)
    requires i < |s|
    ensures Filter(p, s[..i + 1]) == Filter(p, s[..i]) + (if p(s[i]) then [s[i]] else [])
    ensures Filter(p, s) == Filter(p, s[..i + 1]) + Filter(p, s[i + 1..])
  {
    FilterConcat(p, s[..i], [s[i]]);
    assert s[..i] + [s[i]] == s[..i + 1];
    FilterCut(p, s, i + 1);
  }

  lemma {:induction false} FilterCut<T>(p: T -> bool, s: seq<T>, i: nat)
    requires i <= |s|
    ensures Filter(p, s) == Filter(p, s[..i]) + Filter(p, s[i..])
  {
    FilterConcat(p, s[..i], s[i..]);
    assert s[..i] + s[i..] == s;
  }

  lemma {:induction false} FilterAll<T>(p: T -> bool, s: seq<T>)
    requires forall x :: x in s ==> p(x)
    ensures Filter(p, s) == s
  {
    if s != [] {
      FilterAll(p, s[1..]);
    }
  }
}
