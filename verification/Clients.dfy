/** Known clients: longest-prefix lookup through one bucket per prefix length. */
module Clients {
  import opened Dns
  import opened Sorting
  import opened Input

  // ---------- addresses and networks ----------

  /** Addresses are their bits, most significant first. */
  datatype Addr = NoAddr | V4(bits: seq<bool>) | V6(bits: seq<bool>) {
    predicate Valid() {
      (V4? ==> |bits| == 32) && (V6? ==> |bits| == 128)
    }
  }

  function Repeat(b: bool, n: nat): seq<bool> { seq(n, _ => b) }

  function MappedHead(): seq<bool> { Repeat(false, 80) + Repeat(true, 16) }

  predicate Is4In6(a: Addr) { a.V6? && |a.bits| == 128 && a.bits[..96] == MappedHead() }

  function Unmap(a: Addr): (r: Addr)
    requires a.Valid()
    ensures r.Valid() && !Is4In6(r)
  {
    if Is4In6(a) then V4(a.bits[96..]) else a
  }

  /** A masked network: its family and the bits that are fixed. */
  datatype Prefix = Prefix(v6: bool, head: seq<bool>)

  predicate Contains(p: Prefix, a: Addr) {
    !a.NoAddr? && a.V6? == p.v6 && p.head <= a.bits
  }

  /** What an administrator may enter, once its text has been read. */
  datatype Entered = Host(addr: Addr) | Net(base: Addr, length: nat) | Unreadable

  function ParsePrefix(raw: Entered): Option<Prefix> {
    match raw
    case Unreadable => None
    case Net(base, length) =>
      if base.NoAddr? || !base.Valid() || length > |base.bits| then None
      else if Is4In6(base) && length >= 96 then Some(Prefix(false, base.bits[96..length]))
      else Some(Prefix(base.V6?, base.bits[..length]))
    case Host(addr) =>
      if addr.NoAddr? || !addr.Valid() then None
      else Some(Prefix(Unmap(addr).V6?, Unmap(addr).bits))
  }

  function FormatPrefix(p: Prefix): Entered {
    var width := if p.v6 then 128 else 32;
    if |p.head| > width then Unreadable
    else
      var bits := p.head + Repeat(false, width - |p.head|);
      var base := if p.v6 then V6(bits) else V4(bits);
      if |p.head| == width then Host(base) else Net(base, |p.head|)
  }

  /** The stored text of a network reads back as the same network. */
  lemma FormatRoundTrip(raw: Entered)
    requires ParsePrefix(raw).Some?
    ensures ParsePrefix(FormatPrefix(ParsePrefix(raw).value)) == ParsePrefix(raw)
  {
    var p := ParsePrefix(raw).value;
    var width := if p.v6 then 128 else 32;
    var bits := p.head + Repeat(false, width - |p.head|);
    assert bits[..|p.head|] == p.head;
    if |p.head| == width {
      assert bits == p.head;
      if raw.Net? && p.v6 {
        assert raw.base.bits[..96] == bits[..96];
      }
    } else if p.v6 {
      assert |p.head| < 96 || p.head[..96] != MappedHead() by {
        if raw.Net? && |p.head| >= 96 {
          assert p.head[..96] == raw.base.bits[..96];
        }
      }
      if |p.head| < 96 {
        assert !bits[95] && MappedHead()[95];
        assert bits[..96][95] == bits[95];
      } else {
        assert bits[..96] == p.head[..96];
      }
    }
  }

  /** The IPv6 form of an IPv4 address. */
  function Mapped(bits: seq<bool>): seq<bool> { MappedHead() + bits }

  predicate Readable(raw: Entered) {
    match raw
    case Unreadable => false
    case Host(addr) => !addr.NoAddr? && addr.Valid()
    case Net(base, length) => !base.NoAddr? && base.Valid() && length <= |base.bits|
  }

  /** What an entered address or network means for a client address: it is that address,
      or its leading bits are those of the network. An address or network inside the range
      that stands for IPv4 means the IPv4 addresses. */
  ghost predicate Means(raw: Entered, a: Addr)
    requires Readable(raw) && a.Valid()
  {
    match raw
    case Unreadable => false
    case Host(addr) => a == Unmap(addr)
    case Net(base, length) =>
      if Is4In6(base) && length >= 96 then a.V4? && Mapped(a.bits)[..length] == base.bits[..length]
      else !a.NoAddr? && a.V6? == base.V6? && length <= |a.bits| && a.bits[..length] == base.bits[..length]
  }

  lemma ParseMeans(raw: Entered, a: Addr)
    requires a.Valid()
    ensures ParsePrefix(raw).Some? <==> Readable(raw)
    ensures ParsePrefix(raw).Some? ==> (Contains(ParsePrefix(raw).value, a) <==> Means(raw, a))
  {
    if ParsePrefix(raw).Some? {
      match raw {
        case Host(addr) =>
          var u := Unmap(addr);
          if Contains(ParsePrefix(raw).value, a) {
            assert |u.bits| == |a.bits| && u.bits == a.bits[..|u.bits|] == a.bits;
          }
        case Net(base, length) =>
          if Is4In6(base) && length >= 96 && a.V4? {
            MappedNet(base.bits, a.bits, length);
          }
      }
    }
  }

  lemma MappedNet(base: seq<bool>, bits: seq<bool>, length: nat)
    requires |base| == 128 && |bits| == 32 && 96 <= length <= 128 && base[..96] == MappedHead()
    ensures base[96..length] <= bits <==> Mapped(bits)[..length] == base[..length]
  {
    var whole := Mapped(bits);
    assert base[..length] == base[..96] + base[96..length];
    assert whole[..length] == MappedHead() + bits[..length - 96];
    if base[96..length] <= bits {
      assert bits[..length - 96] == base[96..length];
    }
    if whole[..length] == base[..length] {
      assert whole[..length][96..] == bits[..length - 96] && base[..length][96..] == base[96..length];
    }
  }

  // ---------- clients ----------

  datatype Client = Client(id: int, name: string, addresses: seq<Entered>, group: string, description: string, enabled: bool)

  predicate Owns(c: Client, p: Prefix) {
    exists i :: 0 <= i < |c.addresses| && ParsePrefix(c.addresses[i]) == Some(p)
  }

  /** The enabled client listed last among those that own a network. */
  ghost function Owner(clients: seq<Client>, p: Prefix): Option<Client> {
    if clients == [] then None
    else
      var c := clients[|clients| - 1];
      if c.enabled && Owns(c, p) then Some(c) else Owner(clients[..|clients| - 1], p)
  }

  lemma {:induction false} OwnerMember(clients: seq<Client>, p: Prefix)
    ensures Owner(clients, p).Some? <==> exists c :: c in clients && c.enabled && Owns(c, p)
    ensures Owner(clients, p).Some? ==> var c := Owner(clients, p).value; c in clients && c.enabled && Owns(c, p)
  {
    if clients != [] {
      OwnerMember(clients[..|clients| - 1], p);
      assert forall c :: c in clients <==> c in clients[..|clients| - 1] || c == clients[|clients| - 1];
    }
  }

  datatype Index = Index(byLength: map<nat, map<Prefix, Client>>, lengths: seq<nat>)

  function Entry(m: map<nat, map<Prefix, Client>>, p: Prefix): Option<Client> {
    if |p.head| in m && p in m[|p.head|] then Some(m[|p.head|][p]) else None
  }

  predicate Descending(s: seq<nat>) {
    forall i, j :: 0 <= i < j < |s| ==> s[i] > s[j]
  }

  ghost predicate Indexes(idx: Index, clients: seq<Client>) {
    && (forall p :: Entry(idx.byLength, p) == Owner(clients, p))
    && (forall n :: n in idx.lengths <==> n in idx.byLength)
    && Descending(idx.lengths)
  }

  function Insert(m: map<nat, map<Prefix, Client>>, p: Prefix, c: Client): map<nat, map<Prefix, Client>> {
    var bucket := if |p.head| in m then m[|p.head|] else map[];
    m[|p.head| := bucket[p := c]]
  }

  lemma InsertEntry(m: map<nat, map<Prefix, Client>>, p: Prefix, c: Client, x: Prefix)
    ensures Entry(Insert(m, p, c), x) == if x == p then Some(c) else Entry(m, x)
  {
  }

  /** Puts a length in its place among the longer ones first. */
  function InsertLength(s: seq<nat>, n: nat): (r: seq<nat>)
    requires Descending(s) && n !in s
    ensures Descending(r)
    ensures forall x :: x in r <==> x in s || x == n
  {
    if s == [] then [n]
    else if n > s[0] then
      DescendingCons(n, s);
      [n] + s
    else
      assert s[0] in s && s == [s[0]] + s[1..];
      DescendingCons(s[0], InsertLength(s[1..], n));
      [s[0]] + InsertLength(s[1..], n)
  }

  lemma DescendingCons(n: nat, s: seq<nat>)
    ensures Descending(s) && (forall x :: x in s ==> x < n) ==> Descending([n] + s)
    ensures Descending(s) && s != [] && s[0] < n ==> Descending([n] + s)
  {
    assert forall i :: 0 <= i < |s| ==> s[i] in s;
  }

  ghost predicate InFirst(c: Client, k: nat, p: Prefix) {
    exists i :: 0 <= i < k && i < |c.addresses| && ParsePrefix(c.addresses[i]) == Some(p)
  }

  /** Enters the networks of one client, later ones over earlier ones. */
  method AddClient(idx: Index, c: Client) returns (out: Index)
    requires (forall n :: n in idx.lengths <==> n in idx.byLength) && Descending(idx.lengths)
    ensures (forall n :: n in out.lengths <==> n in out.byLength) && Descending(out.lengths)
    ensures forall p :: Entry(out.byLength, p) == if Owns(c, p) then Some(c) else Entry(idx.byLength, p)
  {
    var m, lengths := idx.byLength, idx.lengths;
    for i := 0 to |c.addresses|
      invariant (forall n :: n in lengths <==> n in m) && Descending(lengths)
      invariant forall p :: Entry(m, p) == if InFirst(c, i, p) then Some(c) else Entry(idx.byLength, p)
    {
      var prefix := ParsePrefix(c.addresses[i]);
      assert forall p :: InFirst(c, i + 1, p) <==> InFirst(c, i, p) || prefix == Some(p);
      if prefix.None? {
        continue;
      }
      var p := prefix.value;
      forall x {
        InsertEntry(m, p, c, x);
      }
      if |p.head| !in m {
        lengths := InsertLength(lengths, |p.head|);
      }
      m := Insert(m, p, c);
    }
    out := Index(m, lengths);
    assert forall p :: InFirst(c, |c.addresses|, p) <==> Owns(c, p);
  }

  /** Builds the buckets from every enabled client. */
  method Build(clients: seq<Client>) returns (idx: Index)
    ensures Indexes(idx, clients)
  {
    idx := Index(map[], []);
    for i := 0 to |clients|
      invariant Indexes(idx, clients[..i])
    {
      assert clients[..i + 1][..i] == clients[..i];
      if !clients[i].enabled {
        assert forall p :: Owner(clients[..i + 1], p) == Owner(clients[..i], p);
        continue;
      }
      idx := AddClient(idx, clients[i]);
    }
    assert clients[..|clients|] == clients;
  }

  /** The best match by definition: an enabled client with the longest network around
      the address. */
  ghost predicate IsBest(clients: seq<Client>, a: Addr, c: Client) {
    && c in clients && c.enabled
    && exists p :: Owns(c, p) && Contains(p, a)
         && forall d, x :: d in clients && d.enabled && Owns(d, x) && Contains(x, a) ==> |x.head| <= |p.head|
  }

  ghost predicate IsUnknown(clients: seq<Client>, a: Addr) {
    forall d, x :: d in clients && d.enabled && Owns(d, x) ==> !Contains(x, a)
  }

  /** Tries the lengths from the longest: the first bucket that knows the address wins. */
  method Lookup(idx: Index, ghost clients: seq<Client>, ip: Addr) returns (found: Option<Client>)
    requires Indexes(idx, clients) && ip.Valid()
    ensures found.None? ==> IsUnknown(clients, Unmap(ip))
    ensures found.Some? ==> IsBest(clients, Unmap(ip), found.value)
  {
    var a := Unmap(ip);
    if a.NoAddr? {
      return None;
    }
    for i := 0 to |idx.lengths|
      invariant forall d, x :: d in clients && d.enabled && Owns(d, x) && Contains(x, a) ==> forall j :: 0 <= j < i ==> idx.lengths[j] != |x.head|
    {
      var n := idx.lengths[i];
      if n <= |a.bits| {
        var p := Prefix(a.V6?, a.bits[..n]);
        OwnerMember(clients, p);
        assert Entry(idx.byLength, p) == Owner(clients, p);
        if p in idx.byLength[n] {
          LongestLengthLeft(idx, clients, a, i);
          return Some(idx.byLength[n][p]);
        }
        assert forall x :: Contains(x, a) && |x.head| == n ==> x == p;
      }
    }
    forall d, x | d in clients && d.enabled && Owns(d, x)
      ensures !Contains(x, a)
    {
      OwnerMember(clients, x);
      assert Entry(idx.byLength, x) == Owner(clients, x);
    }
    return None;
  }

  lemma LongestLengthLeft(idx: Index, clients: seq<Client>, a: Addr, i: nat)
    requires Indexes(idx, clients) && i < |idx.lengths|
    requires forall d, x :: d in clients && d.enabled && Owns(d, x) && Contains(x, a) ==> forall j :: 0 <= j < i ==> idx.lengths[j] != |x.head|
    ensures forall d, x :: d in clients && d.enabled && Owns(d, x) && Contains(x, a) ==> |x.head| <= idx.lengths[i]
  {
    forall d, x | d in clients && d.enabled && Owns(d, x) && Contains(x, a)
      ensures |x.head| <= idx.lengths[i]
    {
      OwnerMember(clients, x);
      assert Entry(idx.byLength, x) == Owner(clients, x);
      assert |x.head| in idx.lengths;
      var j :| 0 <= j < |idx.lengths| && idx.lengths[j] == |x.head|;
    }
  }

  // ---------- one owner per network ----------

  /** No network belongs to two clients, enabled or not. */
  ghost predicate OneOwner(clients: seq<Client>) {
    forall i, j, p :: 0 <= i < j < |clients| && Owns(clients[i], p) ==> !Owns(clients[j], p)
  }

  /** With one owner per network the best match is unique, so neither the order of the
      list nor the order in which it is indexed can matter. */
  lemma BestIsUnique(clients: seq<Client>, others: seq<Client>, a: Addr, c: Client, d: Client)
    requires OneOwner(clients) && multiset(clients) == multiset(others)
    requires IsBest(clients, a, c) && IsBest(others, a, d)
    ensures c == d
  {
    assert d in multiset(clients) && d in clients;
    assert c in multiset(others) && c in others;
    var p :| Owns(c, p) && Contains(p, a)
      && forall e, x :: e in clients && e.enabled && Owns(e, x) && Contains(x, a) ==> |x.head| <= |p.head|;
    var q :| Owns(d, q) && Contains(q, a)
      && forall e, x :: e in others && e.enabled && Owns(e, x) && Contains(x, a) ==> |x.head| <= |q.head|;
    assert p == q;
    var i :| 0 <= i < |clients| && clients[i] == c;
    var j :| 0 <= j < |clients| && clients[j] == d;
  }

  datatype SaveError = Invalid | NameTaken | AddressTaken | NotFound | TooMany | StoreFailed

  const MAX_CLIENTS := 1024

  const MAX_ADDRESSES := 16
  const MAX_NAME := 80
  const MAX_GROUP := 60
  const MAX_DESCRIPTION := 200

  /** How texts are treated without regard to case: which names are the same, what they
      are sorted by, and the order of that; `trim` removes the space around a text. */
  datatype Texts = Texts(trim: string -> string, same: (string, string) -> bool, lower: string -> string, before: (string, string) -> bool)

  // ---------- normalising ----------

  function ReadNetwork(raw: Entered): Read<Prefix> {
    if ParsePrefix(raw).None? then Bad else Good(ParsePrefix(raw).value)
  }

  function Formatted(prefixes: seq<Prefix>): seq<Entered> {
    seq(|prefixes|, i requires 0 <= i < |prefixes| => FormatPrefix(prefixes[i]))
  }

  predicate GoodText(text: string, max: nat, required: bool) { (required ==> text != "") && |text| <= max && OneLine(text) }

  function Trimmed(x: Texts, c: Client): Client {
    c.(name := x.trim(c.name), group := x.trim(c.group), description := x.trim(c.description))
  }

  predicate GoodTexts(c: Client) {
    GoodText(c.name, MAX_NAME, true) && GoodText(c.group, MAX_GROUP, false) && GoodText(c.description, MAX_DESCRIPTION, false)
  }

  /** The client as it is stored: texts trimmed, each network once and in its standard
      form. */
  function NormalClient(x: Texts, raw: Client): Option<Client> {
    var c := Trimmed(x, raw);
    var prefixes := Values(ReadNetwork, raw.addresses);
    if !GoodTexts(c) || !(1 <= |raw.addresses| <= MAX_ADDRESSES) || prefixes.None? then None
    else Some(c.(addresses := Formatted(prefixes.value)))
  }

  predicate Reads(c: Client, prefixes: seq<Prefix>) {
    |prefixes| == |c.addresses| && forall i :: 0 <= i < |prefixes| ==> ParsePrefix(c.addresses[i]) == Some(prefixes[i])
  }

  lemma FormattedReads(c: Client, raws: seq<Entered>)
    requires Values(ReadNetwork, raws).Some? && c.addresses == Formatted(Values(ReadNetwork, raws).value)
    ensures Reads(c, Values(ReadNetwork, raws).value)
  {
    ValuesMean(ReadNetwork, raws);
    var prefixes := Values(ReadNetwork, raws).value;
    forall i | 0 <= i < |prefixes| ensures ParsePrefix(c.addresses[i]) == Some(prefixes[i]) {
      assert prefixes[i] in prefixes;
      var j :| 0 <= j < |raws| && ReadNetwork(raws[j]) == Good(prefixes[i]);
      FormatRoundTrip(raws[j]);
    }
  }

  predicate GoodNetworks(raws: seq<Entered>) {
    1 <= |raws| <= MAX_ADDRESSES && forall i :: 0 <= i < |raws| ==> ParsePrefix(raws[i]).Some?
  }

  /** What is stored has the networks that were entered, each once. */
  lemma NormalClientOwns(x: Texts, raw: Client)
    ensures NormalClient(x, raw).Some? <==> GoodTexts(Trimmed(x, raw)) && GoodNetworks(raw.addresses)
    ensures NormalClient(x, raw).Some? ==> forall p :: Owns(NormalClient(x, raw).value, p) <==> Owns(raw, p)
    ensures NormalClient(x, raw).Some? ==> var c := NormalClient(x, raw).value;
              forall i, j :: 0 <= i < j < |c.addresses| ==> ParsePrefix(c.addresses[i]) != ParsePrefix(c.addresses[j])
  {
    ValuesMean(ReadNetwork, raw.addresses);
    if NormalClient(x, raw).Some? {
      var c, prefixes := NormalClient(x, raw).value, Values(ReadNetwork, raw.addresses).value;
      FormattedReads(c, raw.addresses);
      forall p ensures Owns(c, p) <==> Owns(raw, p) {
        OwnsRead(c, prefixes, p);
        assert Owns(raw, p) <==> SomeReads(ReadNetwork, raw.addresses, p);
      }
    }
  }

  lemma OwnsRead(c: Client, prefixes: seq<Prefix>, p: Prefix)
    requires Reads(c, prefixes)
    ensures Owns(c, p) <==> p in prefixes
  {
  }

  method Normalize(x: Texts, raw: Client) returns (c: Option<Client>, prefixes: seq<Prefix>)
    ensures c == NormalClient(x, raw) && (c.Some? ==> Reads(c.value, prefixes))
  {
    prefixes := [];
    var trimmed := Trimmed(x, raw);
    if !GoodTexts(trimmed) || |raw.addresses| == 0 || |raw.addresses| > MAX_ADDRESSES {
      return None, [];
    }
    var read := ReadAll(ReadNetwork, raw.addresses);
    if read.None? {
      return None, [];
    }
    c := Some(trimmed.(addresses := Formatted(read.value)));
    FormattedReads(c.value, raw.addresses);
    prefixes := read.value;
  }

  // ---------- saving ----------

  predicate IsSelf(existing: Client, c: Client) { existing.id == c.id && c.id != 0 }

  predicate NameClash(x: Texts, existing: Client, c: Client) { !IsSelf(existing, c) && x.same(existing.name, c.name) }

  ghost predicate AddressClash(existing: Client, c: Client) { !IsSelf(existing, c) && exists p :: Owns(existing, p) && Owns(c, p) }

  ghost predicate Clash(x: Texts, existing: Client, c: Client) { NameClash(x, existing, c) || AddressClash(existing, c) }

  /** Client `i` is the first that clashes with the one to be saved. */
  ghost predicate FirstClash(x: Texts, clients: seq<Client>, c: Client, i: nat) {
    i < |clients| && Clash(x, clients[i], c) && forall j :: 0 <= j < i ==> !Clash(x, clients[j], c)
  }

  ghost predicate NoClash(x: Texts, clients: seq<Client>, c: Client) {
    forall i :: 0 <= i < |clients| ==> !Clash(x, clients[i], c)
  }

  predicate HasId(clients: seq<Client>, id: int) { exists i :: 0 <= i < |clients| && clients[i].id == id }

  /** Which refusal is given when; the first clash decides between the first two. */
  ghost predicate Refuses(x: Texts, clients: seq<Client>, c: Client, stored: bool, error: Option<SaveError>) {
    match error
    case Some(Invalid) => false
    case Some(NameTaken) => exists i: nat :: FirstClash(x, clients, c, i) && NameClash(x, clients[i], c)
    case Some(AddressTaken) => exists i: nat :: FirstClash(x, clients, c, i) && !NameClash(x, clients[i], c)
    case Some(NotFound) => NoClash(x, clients, c) && c.id != 0 && !HasId(clients, c.id)
    case Some(TooMany) => NoClash(x, clients, c) && c.id == 0 && |clients| >= 1024
    case Some(StoreFailed) => Acceptable(x, clients, c) && !stored
    case None => Acceptable(x, clients, c) && stored
  }

  ghost predicate Acceptable(x: Texts, clients: seq<Client>, c: Client) {
    NoClash(x, clients, c) && if c.id == 0 then |clients| < 1024 else HasId(clients, c.id)
  }

  predicate DistinctIds(clients: seq<Client>) { forall i, j :: 0 <= i < j < |clients| ==> clients[i].id != clients[j].id }

  /** `out` is the list with the client added, or put in its own place. */
  predicate Replaces(clients: seq<Client>, c: Client, newId: int, out: seq<Client>) {
    if c.id == 0 then out == clients + [c.(id := newId)]
    else exists k :: 0 <= k < |clients| && clients[k].id == c.id && out == clients[k := c]
  }

  function NameKey(x: Texts): Client -> string { (c: Client) => x.lower(c.name) }

  /** Whether an existing client has one of the networks. */
  method SharesNetwork(existing: Client, c: Client, prefixes: seq<Prefix>) returns (shares: bool)
    requires Reads(c, prefixes)
    ensures shares <==> exists p :: Owns(existing, p) && Owns(c, p)
  {
    for j := 0 to |existing.addresses|
      invariant forall l :: 0 <= l < j ==> ParsePrefix(existing.addresses[l]).None? || ParsePrefix(existing.addresses[l]).value !in prefixes
    {
      var other := ParsePrefix(existing.addresses[j]);
      if other.Some? && other.value in prefixes {
        assert Owns(existing, other.value) && Owns(c, other.value);
        return true;
      }
    }
    forall p | Owns(c, p)
      ensures !Owns(existing, p)
    {
      var l :| 0 <= l < |c.addresses| && ParsePrefix(c.addresses[l]) == Some(p);
      assert prefixes[l] == p;
    }
    return false;
  }

  lemma ReplacedKeepsOneOwner(x: Texts, clients: seq<Client>, c: Client, newId: int, out: seq<Client>)
    requires OneOwner(clients) && DistinctIds(clients) && NoClash(x, clients, c) && Replaces(clients, c, newId, out)
    ensures OneOwner(out)
  {
    assert forall p :: Owns(c.(id := newId), p) <==> Owns(c, p);
    forall i, p | 0 <= i < |clients| && !IsSelf(clients[i], c) && Owns(c, p)
      ensures !Owns(clients[i], p)
    {
      assert !Clash(x, clients[i], c);
    }
  }

  lemma PermutedOneOwner(a: seq<Client>, b: seq<Client>)
    requires OneOwner(a) && multiset(a) == multiset(b)
    ensures OneOwner(b)
  {
    forall i, j, p | 0 <= i < j < |b| && Owns(b[i], p)
      ensures !Owns(b[j], p)
    {
      OwnersApart(a, b, i, j, p);
    }
  }

  /** Two places of a list are two places of any arrangement of it. */
  lemma OwnersApart(a: seq<Client>, b: seq<Client>, i: nat, j: nat, p: Prefix)
    requires OneOwner(a) && multiset(a) == multiset(b) && i < j < |b| && Owns(b[i], p)
    ensures !Owns(b[j], p)
  {
    SameMembers(b, a, b[i]);
    SameMembers(b, a, b[j]);
    var x :| 0 <= x < |a| && a[x] == b[i];
    var y :| 0 <= y < |a| && a[y] == b[j];
    if b[i] == b[j] {
      TwiceIn(b, i, j);
      assert forall y :: 0 <= y < |a| && y != x ==> a[y] != a[x];
      OnceIn(a, x);
    }
  }

  /** The new list is the old one with the client in its place, sorted by name. */
  ghost predicate StoredIn(x: Texts, clients: seq<Client>, c: Client, newId: int, out: seq<Client>) {
    exists placed :: Replaces(clients, c, newId, placed) && Sorted(x.before, NameKey(x), placed, out)
  }

  /** Stores a client in normal form under its number, or adds it if that is zero, sorts
      by name and indexes anew. */
  method Store(clients: seq<Client>, c: Client, prefixes: seq<Prefix>, x: Texts, newId: int, stored: bool)
    returns (out: seq<Client>, idx: Option<Index>, error: Option<SaveError>)
    requires OneOwner(clients) && DistinctIds(clients) && TotalOrder(x.before) && Reads(c, prefixes)
    ensures Refuses(x, clients, c, stored, error)
    ensures error.Some? ==> out == clients && idx.None?
    ensures error.None? ==> StoredIn(x, clients, c, newId, out)
    ensures error.None? ==> idx.Some? && Indexes(idx.value, out)
    ensures OneOwner(out)
  {
    out, idx := clients, None;
    var index := -1;
    for i := 0 to |clients|
      invariant -1 <= index < i
      invariant index >= 0 ==> IsSelf(clients[index], c)
      invariant forall k :: 0 <= k < i && k != index ==> !IsSelf(clients[k], c)
      invariant forall k :: 0 <= k < i ==> !Clash(x, clients[k], c)
    {
      var existing := clients[i];
      if existing.id == c.id && c.id != 0 {
        index := i;
        continue;
      }
      if x.same(existing.name, c.name) {
        assert FirstClash(x, clients, c, i);
        error := Some(NameTaken);
        return;
      }
      var shares := SharesNetwork(existing, c, prefixes);
      if shares {
        assert FirstClash(x, clients, c, i);
        error := Some(AddressTaken);
        return;
      }
    }
    if c.id != 0 && index < 0 {
      error := Some(NotFound);
      return;
    }
    if c.id == 0 && |clients| >= MAX_CLIENTS {
      error := Some(TooMany);
      return;
    }
    if !stored {
      error := Some(StoreFailed);
      return;
    }
    var candidate := if index < 0 then clients + [c.(id := newId)] else clients[index := c];
    assert Replaces(clients, c, newId, candidate);
    ReplacedKeepsOneOwner(x, clients, c, newId, candidate);
    out := Sort(x.before, NameKey(x), candidate);
    PermutedOneOwner(candidate, out);
    var built := Build(out);
    idx := Some(built);
    error := None;
  }

  /** Normalises what was entered and stores it. `newId` is the number and `stored` the
      success the database reports. */
  method Save(clients: seq<Client>, raw: Client, x: Texts, newId: int, stored: bool)
    returns (out: seq<Client>, idx: Option<Index>, error: Option<SaveError>)
    requires OneOwner(clients) && DistinctIds(clients) && TotalOrder(x.before)
    ensures error == Some(Invalid) <==> NormalClient(x, raw).None?
    ensures NormalClient(x, raw).Some? ==> Refuses(x, clients, NormalClient(x, raw).value, stored, error)
    ensures error.Some? ==> out == clients && idx.None?
    ensures error.None? ==> StoredIn(x, clients, NormalClient(x, raw).value, newId, out)
    ensures error.None? ==> idx.Some? && Indexes(idx.value, out)
    ensures OneOwner(out)
  {
    var c, prefixes := Normalize(x, raw);
    if c.None? {
      return clients, None, Some(Invalid);
    }
    out, idx, error := Store(clients, c.value, prefixes, x, newId, stored);
  }
}
