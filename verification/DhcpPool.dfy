/** Leasing addresses of a pool: range allocation, requested addresses, release, expiry. */
module DhcpPool {
  import opened Dns
  import opened DhcpAddress

  type Mac = string

  /** Times are counted from the zero time, which every clock reading follows. */
  datatype Lease = Lease(mac: Mac, ip: Addr, expires: nat, active: bool)

  /** A stored lease, whose address text may not be readable. */
  datatype Stored = Stored(mac: Mac, ip: Option<Addr>, expires: nat, active: bool)

  datatype Config = Config(subnet: Prefix, gateway: Addr, reservations: map<Mac, Addr>)

  datatype State = State(leases: map<Mac, Lease>, ips: map<Addr, Mac>)

  // ---------- what a client may be given ----------

  predicate LeasedToOther(s: State, a: Addr, mac: Mac) { a in s.ips && s.ips[a] != mac }

  predicate ReservedForOther(c: Config, a: Addr, mac: Mac) {
    exists m :: m in c.reservations && c.reservations[m] == a && m != mac
  }

  predicate Usable(c: Config, s: State, a: Addr, mac: Mac) {
    !LeasedToOther(s, a, mac) && !ReservedForOther(c, a, mac)
  }

  /** A host address of the pool's network. */
  predicate Host(c: Config, a: Addr)
    requires c.subnet.Valid()
  {
    Contains(c.subnet, a) && a != Lowest(c.subnet) && a != Highest(c.subnet)
  }

  /** An address the range walk may hand out. */
  predicate Free(c: Config, s: State, a: Addr, mac: Mac)
    requires c.subnet.Valid()
  {
    Network(c.subnet) < a < Highest(c.subnet) && a != c.gateway && Usable(c, s, a, mac)
  }

  /** Network addresses from which the walk reaches the broadcast address. */
  predicate Walkable(p: Prefix)
    requires p.Valid()
  {
    0 < Network(p) < Highest(p) || Network(p) == Highest(p) == 0
  }

  /** The prefix has no bits outside the network, at least two addresses, and not zero. */
  predicate Proper(p: Prefix) { p.bits <= 31 && p.addr == Lowest(p) && p.addr != 0 }

  lemma ProperIsWalkable(p: Prefix)
    requires Proper(p)
    ensures Walkable(p) && Network(p) == p.addr
  {
    NetworkIsLowest(p);
    LowestBelowHighest(p);
  }

  lemma LowestBelowHighest(p: Prefix)
    requires p.bits <= 31
    ensures Lowest(p) < Highest(p)
  {
    var k, b := p.bits / 8, As4(p.addr);
    var n := 8 - p.bits % 8;
    FilledValue(b, k, Clear(b[k], n));
    FilledValue(b, k, Set(b[k], n));
    ClearBelowSet(b[k], n);
    Blocks(Head(b, k) * 256 + Clear(b[k], n) + 1, Head(b, k) * 256 + Set(b[k], n), Head(b, k) * 256 + Set(b[k], n), 0, Worth(k));
  }

  lemma ClearBelowSet(b: DhcpPacket.Byte, n: nat)
    requires 1 <= n <= 8
    ensures Clear(b, n) < Set(b, n)
  {
  }

  /** In a proper network the walk covers exactly the hosts. */
  lemma FreeAreHosts(c: Config, s: State, a: Addr, mac: Mac)
    requires Proper(c.subnet)
    ensures Free(c, s, a, mac) <==> Host(c, a) && a != c.gateway && Usable(c, s, a, mac)
  {
    NetworkIsLowest(c.subnet);
    ContainsInterval(c.subnet, a);
  }

  // ---------- the walk ----------

  function Walk(a: Addr, n: nat): Addr { if n == 0 then a else Next(Walk(a, n - 1)) }

  lemma {:induction false} WalkCounts(a: Addr, n: nat)
    requires a > 0 && a + n < LIMIT
    ensures Walk(a, n) == a + n
  {
    if n > 0 {
      WalkCounts(a, n - 1);
    }
  }

  lemma {:induction false} WalkSticks(n: nat)
    ensures Walk(0, n) == 0
  {
    if n > 0 {
      WalkSticks(n - 1);
    }
  }

  /** The walk from after the network address reaches the broadcast address without
      leaving the network. */
  ghost predicate Covers(p: Prefix, n: nat)
    requires p.Valid()
  {
    var start := Next(Network(p));
    Walk(start, n) == Highest(p) && forall i: nat :: i < n ==> Contains(p, Walk(start, i))
  }

  /** It does so exactly for the walkable networks: from 0.0.0.0 it never moves, and from
      the broadcast address itself it starts outside. */
  lemma WalkEnds(p: Prefix)
    requires p.Valid()
    ensures (exists n: nat :: Covers(p, n)) <==> Walkable(p)
  {
    NetworkIsLowest(p);
    var lo, hi := Network(p), Highest(p);
    var start := Next(lo);
    if Walkable(p) {
      var n := if lo == hi then 0 else hi - start;
      if lo < hi {
        forall i: nat | i <= n ensures Walk(start, i) == start + i && (i < n ==> Contains(p, Walk(start, i))) {
          WalkCounts(start, i);
          if i < n {
            ContainsInterval(p, start + i);
          }
        }
      }
      assert Covers(p, n);
    } else if lo == 0 {
      forall n: nat ensures !Covers(p, n) {
        WalkSticks(n);
      }
    } else {
      forall n: nat ensures !Covers(p, n) {
        StartOutside(p, n);
      }
    }
  }

  lemma StartOutside(p: Prefix, n: nat)
    requires p.Valid() && Network(p) == Highest(p) > 0
    ensures !Covers(p, n)
  {
    NetworkIsLowest(p);
    var start := Next(Highest(p));
    assert Walk(start, 0) == start != Highest(p);
    ContainsInterval(p, start);
    if start == 0 {
      HighestNeedsSpace(p);
    }
    assert !Contains(p, start);
    assert n > 0 ==> !Contains(p, Walk(start, 0));
  }

  /** A network that ends at the top and starts at zero leaves room for the walk. */
  lemma HighestNeedsSpace(p: Prefix)
    requires p.Valid() && Network(p) == Highest(p) == LIMIT - 1
    ensures Lowest(p) > 0
  {
    var k, b := p.bits / 8, As4(p.addr);
    if k < 4 {
      var r := p.bits % 8;
      FilledValue(b, k, if r != 0 then Clear(b[k], 8 - r) else b[k]);
      FilledValue(b, k, Clear(b[k], 8 - r));
    }
  }

  // ---------- what each operation does ----------

  /** Every lease has its address registered, and every registered address its lease. */
  ghost predicate Consistent(s: State) {
    && (forall m :: m in s.leases ==> s.leases[m].mac == m && s.leases[m].ip in s.ips && s.ips[s.leases[m].ip] == m)
    && (forall a :: a in s.ips ==> s.ips[a] in s.leases && s.leases[s.ips[a]].ip == a)
  }

  /** A range grant on record; it carries the zero time as its expiry. */
  function Recorded(s: State, mac: Mac, a: Addr): State {
    State(s.leases[mac := Lease(mac, a, 0, true)], s.ips[a := mac])
  }

  /** An address the walk hands out when it comes to it, inside the network or not. */
  predicate Grantable(c: Config, s: State, a: Addr, mac: Mac)
    requires c.subnet.Valid()
  {
    a != Network(c.subnet) && a != Highest(c.subnet) && a != c.gateway && Usable(c, s, a, mac)
  }

  function Candidate(c: Config, n: nat): Addr
    requires c.subnet.Valid()
  {
    Walk(Next(Network(c.subnet)), n)
  }

  /** The walk stops at its `n`th address: it is the end, or it can be granted. */
  predicate Stops(c: Config, s: State, mac: Mac, n: nat)
    requires c.subnet.Valid()
  {
    Candidate(c, n) == Highest(c.subnet) || Grantable(c, s, Candidate(c, n), mac)
  }

  ghost predicate StopsFirst(c: Config, s: State, mac: Mac, n: nat)
    requires c.subnet.Valid()
  {
    Stops(c, s, mac, n) && forall i: nat :: i < n ==> !Stops(c, s, mac, i)
  }

  /** What the walk gives where it stops. */
  predicate StopGrant(c: Config, s: State, mac: Mac, n: nat, s': State, r: Option<Addr>)
    requires c.subnet.Valid()
  {
    if Candidate(c, n) == Highest(c.subnet) then s' == s && r == None
    else s' == Recorded(s, mac, Candidate(c, n)) && r == Some(Candidate(c, n))
  }

  /** A client keeps the address it holds; another gets the first one along the walk. */
  ghost predicate RangeGrant(c: Config, s: State, mac: Mac, s': State, r: Option<Addr>)
    requires c.subnet.Valid()
  {
    if mac in s.leases then s' == s && r == Some(s.leases[mac].ip)
    else exists n: nat :: StopsFirst(c, s, mac, n) && StopGrant(c, s, mac, n, s', r)
  }

  /** The walk for a client ends. */
  ghost predicate WalkStops(c: Config, s: State, mac: Mac)
    requires c.subnet.Valid()
  {
    mac in s.leases || exists n: nat :: Stops(c, s, mac, n)
  }

  lemma WalkPosition(c: Config, n: nat)
    requires c.subnet.Valid() && 0 < Network(c.subnet) && Network(c.subnet) + 1 + n < LIMIT
    ensures Candidate(c, n) == Network(c.subnet) + 1 + n
  {
    WalkCounts(Next(Network(c.subnet)), n);
  }

  /** In a walkable network the walk ends, at the lowest free address if there is one. */
  lemma LowestFreeIsGranted(c: Config, s: State, mac: Mac, s': State, r: Option<Addr>)
    requires c.subnet.Valid() && Walkable(c.subnet) && mac !in s.leases && RangeGrant(c, s, mac, s', r)
    ensures match r
            case None => s' == s && forall a :: !Free(c, s, a, mac)
            case Some(a) => Free(c, s, a, mac) && (forall b :: Free(c, s, b, mac) ==> a <= b) && s' == Recorded(s, mac, a)
  {
    var n: nat :| StopsFirst(c, s, mac, n) && StopGrant(c, s, mac, n, s', r);
    var lo, hi := Network(c.subnet), Highest(c.subnet);
    if lo < hi {
      StopsByHighest(c, s, mac, n);
      WalkPosition(c, n);
      forall b | Free(c, s, b, mac) ensures lo + 1 + n <= b {
        FreeStops(c, s, mac, b);
      }
    } else {
      assert Candidate(c, 0) == hi && Stops(c, s, mac, 0);
    }
  }

  /** A free address stops the walk. */
  lemma FreeStops(c: Config, s: State, mac: Mac, b: Addr)
    requires c.subnet.Valid() && 0 < Network(c.subnet) < Highest(c.subnet) && Free(c, s, b, mac)
    ensures Stops(c, s, mac, b - Network(c.subnet) - 1)
  {
    WalkPosition(c, b - Network(c.subnet) - 1);
  }

  lemma StopsByHighest(c: Config, s: State, mac: Mac, n: nat)
    requires c.subnet.Valid() && 0 < Network(c.subnet) < Highest(c.subnet) && StopsFirst(c, s, mac, n)
    ensures n <= Highest(c.subnet) - Network(c.subnet) - 1
  {
    var last := Highest(c.subnet) - Network(c.subnet) - 1;
    WalkPosition(c, last);
    assert Stops(c, s, mac, last);
  }

  lemma {:induction false} WalkAtTop(a: Addr, n: nat)
    requires a > 0 && a + n >= LIMIT
    ensures Walk(a, n) == 0
  {
    if a + n > LIMIT {
      WalkAtTop(a, n - 1);
    } else {
      WalkCounts(a, n - 1);
    }
  }

  /** Where a network of one address, or one without room, sends the walk: up to the top
      and then to zero, where it stays. */
  lemma OutsideCandidates(c: Config, n: nat)
    requires c.subnet.Valid() && Network(c.subnet) == Highest(c.subnet) > 0
    ensures Candidate(c, n) == if Highest(c.subnet) + 1 + n < LIMIT then Highest(c.subnet) + 1 + n else 0
  {
    var hi := Highest(c.subnet);
    if hi == LIMIT - 1 {
      WalkSticks(n);
    } else if hi + 1 + n < LIMIT {
      WalkCounts(hi + 1, n);
    } else {
      WalkAtTop(hi + 1, n);
    }
  }

  /** An address outside a network that the walk from its broadcast address comes to. */
  predicate Beyond(c: Config, a: Addr)
    requires c.subnet.Valid()
  {
    a == 0 || a > Highest(c.subnet)
  }

  lemma BeyondIsReached(c: Config, a: Addr)
    requires c.subnet.Valid() && Network(c.subnet) == Highest(c.subnet) > 0 && Beyond(c, a)
    ensures exists n: nat :: Candidate(c, n) == a
  {
    var n: nat := if a == 0 then LIMIT - 1 - Highest(c.subnet) else a - Highest(c.subnet) - 1;
    OutsideCandidates(c, n);
    assert Candidate(c, n) == a;
  }

  /** The walk for a client without a lease ends exactly in walkable networks and, from a
      broadcast address, if something beyond the network can be granted. */
  lemma WalkStopsExactly(c: Config, s: State, mac: Mac)
    requires c.subnet.Valid() && mac !in s.leases
    ensures WalkStops(c, s, mac) <==>
            || Walkable(c.subnet)
            || (Network(c.subnet) == Highest(c.subnet) && exists a :: Beyond(c, a) && Grantable(c, s, a, mac))
  {
    NetworkIsLowest(c.subnet);
    var lo, hi := Network(c.subnet), Highest(c.subnet);
    if Walkable(c.subnet) {
      var n := if lo < hi then hi - lo - 1 else 0;
      if lo < hi {
        WalkPosition(c, n);
      }
      assert Stops(c, s, mac, n);
    } else if lo == 0 {
      forall n: nat ensures !Stops(c, s, mac, n) {
        WalkSticks(n);
      }
    } else {
      forall n: nat ensures Stops(c, s, mac, n) ==> Beyond(c, Candidate(c, n)) && Grantable(c, s, Candidate(c, n), mac) {
        OutsideCandidates(c, n);
      }
      if a :| Beyond(c, a) && Grantable(c, s, a, mac) {
        BeyondIsReached(c, a);
        var n: nat :| Candidate(c, n) == a;
        assert Stops(c, s, mac, n);
      }
    }
  }

  /** From a broadcast address the walk grants only addresses above the network, or zero. */
  lemma OutsideIsGranted(c: Config, s: State, mac: Mac, s': State, r: Option<Addr>)
    requires c.subnet.Valid() && Network(c.subnet) == Highest(c.subnet) > 0 && mac !in s.leases
    requires RangeGrant(c, s, mac, s', r)
    ensures r.Some? && Beyond(c, r.value) && (r.value == 0 || !Contains(c.subnet, r.value))
  {
    var n: nat :| StopsFirst(c, s, mac, n) && StopGrant(c, s, mac, n, s', r);
    OutsideCandidates(c, n);
    ContainsInterval(c.subnet, Candidate(c, n));
  }

  predicate ReservationReady(c: Config, s: State, mac: Mac) {
    mac in c.reservations && !LeasedToOther(s, c.reservations[mac], mac)
  }

  predicate Acceptable(c: Config, s: State, mac: Mac, asked: Option<Addr>)
    requires c.subnet.Valid()
  {
    && asked.Some? && Usable(c, s, asked.value, mac) && Contains(c.subnet, asked.value)
    && asked.value != Network(c.subnet) && asked.value != Highest(c.subnet)
  }

  ghost predicate DiscoverGrant(c: Config, s: State, mac: Mac, asked: Option<Addr>, s': State, r: Option<Addr>)
    requires c.subnet.Valid()
  {
    if ReservationReady(c, s, mac) then s' == s && r == Some(c.reservations[mac])
    else if Acceptable(c, s, mac, asked) then s' == s && r == asked
    else RangeGrant(c, s, mac, s', r)
  }

  ghost predicate RequestGrant(c: Config, s: State, mac: Mac, asked: Option<Addr>, s': State, r: Option<Addr>)
    requires c.subnet.Valid()
  {
    if mac in c.reservations then
      && s' == s
      && r == if ReservationReady(c, s, mac) && (asked.None? || asked.value == c.reservations[mac])
              then Some(c.reservations[mac]) else None
    else if asked.Some? then s' == s && r == if Acceptable(c, s, mac, asked) then asked else None
    else RangeGrant(c, s, mac, s', r)
  }

  function Released(s: State, mac: Mac): State {
    if mac in s.leases then State(s.leases - {mac}, s.ips - {s.leases[mac].ip}) else s
  }

  predicate Over(l: Lease, now: nat) { now > l.expires }

  function Expired(s: State, now: nat): State {
    State(map m | m in s.leases && !Over(s.leases[m], now) :: s.leases[m],
          map a | a in s.ips && !(exists m :: m in s.leases && Over(s.leases[m], now) && s.leases[m].ip == a) :: s.ips[a])
  }

  // ---------- the allocator ----------

  class Allocator {
    const config: Config
    var leases: map<Mac, Lease>
    var ips: map<Addr, Mac>

    ghost function Contents(): State reads this { State(leases, ips) }

    constructor (config: Config, stored: seq<Stored>, now: nat)
      ensures this.config == config && Contents() == Seeded(stored, now)
    {
      this.config := config;
      leases, ips := map[], map[];
      new;
      for i := 0 to |stored|
        invariant Contents() == Seeded(stored[..i], now)
      {
        assert stored[..i + 1][..i] == stored[..i];
        var l := stored[i];
        if l.active && !(now > l.expires) {
          if l.ip.Some? {
            leases := leases[l.mac := Lease(l.mac, l.ip.value, l.expires, true)];
            ips := ips[l.ip.value := l.mac];
          }
        }
      }
      assert stored[..|stored|] == stored;
    }

    method MayUse(ip: Addr, mac: Mac) returns (ok: bool)
      ensures ok == Usable(config, Contents(), ip, mac)
    {
      if ip in ips && ips[ip] != mac {
        return false;
      }
      var todo := config.reservations.Keys;
      while todo != {}
        invariant todo <= config.reservations.Keys
        invariant forall m :: m in config.reservations && m !in todo ==> config.reservations[m] != ip || m == mac
        decreases todo
      {
        var m :| m in todo;
        if config.reservations[m] == ip && m != mac {
          return false;
        }
        todo := todo - {m};
      }
      return true;
    }

    method IsNetworkOrBroadcast(ip: Addr) returns (yes: bool)
      requires config.subnet.Valid()
      ensures yes <==> ip == Network(config.subnet) || ip == Highest(config.subnet)
    {
      var network := NetworkAddr(config.subnet);
      var broadcast := BroadcastAddr(config.subnet);
      return ip == network || ip == broadcast;
    }

    method AllocateFromRange(mac: Mac) returns (r: Option<Addr>)
      requires config.subnet.Valid() && WalkStops(config, Contents(), mac)
      modifies this`leases, this`ips
      ensures RangeGrant(config, old(Contents()), mac, Contents(), r)
    {
      if mac in leases {
        return Some(leases[mac].ip);
      }
      ghost var last: nat :| Stops(config, Contents(), mac, last);
      ghost var n: nat := 0;
      var network := NetworkAddr(config.subnet);
      var ip := NextIP(network);
      var end := BroadcastAddr(config.subnet);
      while ip != end
        invariant Contents() == old(Contents()) && ip == Candidate(config, n) && n <= last
        invariant forall i: nat :: i < n ==> !Stops(config, Contents(), mac, i)
        decreases last - n
      {
        var edge := IsNetworkOrBroadcast(ip);
        var usable := MayUse(ip, mac);
        if edge || !usable || ip == config.gateway {
          assert !Stops(config, Contents(), mac, n);
          ip := NextIP(ip);
          n := n + 1;
          continue;
        }
        assert StopsFirst(config, Contents(), mac, n);
        ips := ips[ip := mac];
        leases := leases[mac := Lease(mac, ip, 0, true)];
        return Some(ip);
      }
      assert StopsFirst(config, Contents(), mac, n);
      return None;
    }

    method MayGrant(asked: Option<Addr>, mac: Mac) returns (ok: bool)
      requires config.subnet.Valid()
      ensures ok == Acceptable(config, Contents(), mac, asked)
    {
      if asked.None? {
        return false;
      }
      var usable := MayUse(asked.value, mac);
      var edge := IsNetworkOrBroadcast(asked.value);
      return usable && Contains(config.subnet, asked.value) && !edge;
    }

    method AllocateForDiscover(mac: Mac, asked: Option<Addr>) returns (r: Option<Addr>)
      requires config.subnet.Valid()
      requires !ReservationReady(config, Contents(), mac) && !Acceptable(config, Contents(), mac, asked) ==> WalkStops(config, Contents(), mac)
      modifies this`leases, this`ips
      ensures DiscoverGrant(config, old(Contents()), mac, asked, Contents(), r)
    {
      if mac in config.reservations {
        var reserved := config.reservations[mac];
        if reserved !in ips || ips[reserved] == mac {
          return Some(reserved);
        }
      }
      var ok := MayGrant(asked, mac);
      if ok {
        return asked;
      }
      r := AllocateFromRange(mac);
    }

    method AllocateForRequest(mac: Mac, asked: Option<Addr>) returns (r: Option<Addr>)
      requires config.subnet.Valid()
      requires mac !in config.reservations && asked.None? ==> WalkStops(config, Contents(), mac)
      modifies this`leases, this`ips
      ensures RequestGrant(config, old(Contents()), mac, asked, Contents(), r)
    {
      if mac in config.reservations {
        var reserved := config.reservations[mac];
        if asked.None? || asked.value == reserved {
          if reserved !in ips || ips[reserved] == mac {
            return Some(reserved);
          }
        }
        return None;
      }
      if asked.Some? {
        var ok := MayGrant(asked, mac);
        return if ok then asked else None;
      }
      r := AllocateFromRange(mac);
    }

    method Release(mac: Mac) returns (ok: bool)
      modifies this`leases, this`ips
      ensures Contents() == Released(old(Contents()), mac) && ok == (mac in old(leases))
    {
      if mac !in leases {
        return false;
      }
      ips := ips - {leases[mac].ip};
      leases := leases - {mac};
      return true;
    }

    /** Drops the leases that are over, in any order, and returns them marked so. */
    method ExpireLeases(now: nat) returns (expired: seq<Lease>)
      modifies this`leases, this`ips
      ensures Contents() == Expired(old(Contents()), now)
      ensures forall l :: l in expired <==>
                exists m :: m in old(leases) && Over(old(leases)[m], now) && l == old(leases)[m].(active := false)
    {
      expired := [];
      var todo := leases.Keys;
      ghost var before := Contents();
      while todo != {}
        invariant todo <= before.leases.Keys && Contents() == Visited(before, now, todo)
        invariant ExpiredOf(before, now, todo, expired)
        decreases todo
      {
        var m :| m in todo;
        VisitOne(before, now, todo, m);
        ExpireOne(before, now, todo, m, expired);
        if now > leases[m].expires {
          expired := expired + [leases[m].(active := false)];
          ips := ips - {leases[m].ip};
          leases := leases - {m};
        }
        todo := todo - {m};
      }
    }
  }

  /** An expired lease that was already visited held `a`. */
  ghost predicate DroppedAt(s: State, now: nat, todo: set<Mac>, a: Addr) {
    exists m :: m in s.leases && m !in todo && Over(s.leases[m], now) && s.leases[m].ip == a
  }

  /** The tables once all leases but those of `todo` were looked at. */
  ghost function Visited(s: State, now: nat, todo: set<Mac>): State {
    State(map m | m in s.leases && (m in todo || !Over(s.leases[m], now)) :: s.leases[m],
          map a | a in s.ips && !DroppedAt(s, now, todo, a) :: s.ips[a])
  }

  ghost predicate ExpiredOf(s: State, now: nat, todo: set<Mac>, expired: seq<Lease>) {
    forall l :: l in expired <==>
      exists m :: m in s.leases && m !in todo && Over(s.leases[m], now) && l == s.leases[m].(active := false)
  }

  lemma VisitOne(s: State, now: nat, todo: set<Mac>, m: Mac)
    requires m in todo && m in s.leases
    ensures var t, u := Visited(s, now, todo), Visited(s, now, todo - {m});
            && m in t.leases && t.leases[m] == s.leases[m]
            && u == if Over(s.leases[m], now) then State(t.leases - {m}, t.ips - {s.leases[m].ip}) else t
  {
    var t, u := Visited(s, now, todo), Visited(s, now, todo - {m});
    forall a ensures DroppedAt(s, now, todo - {m}, a) <==> DroppedAt(s, now, todo, a) || (Over(s.leases[m], now) && s.leases[m].ip == a) {
    }
    if Over(s.leases[m], now) {
      assert u.leases == t.leases - {m} && u.ips == t.ips - {s.leases[m].ip};
    } else {
      assert u.leases == t.leases && u.ips == t.ips;
    }
  }

  lemma ExpireOne(s: State, now: nat, todo: set<Mac>, m: Mac, expired: seq<Lease>)
    requires m in todo && m in s.leases && ExpiredOf(s, now, todo, expired)
    ensures ExpiredOf(s, now, todo - {m}, if Over(s.leases[m], now) then expired + [s.leases[m].(active := false)] else expired)
  {
  }

  // ---------- seeding ----------

  function Seeded(stored: seq<Stored>, now: nat): State {
    if stored == [] then State(map[], map[])
    else
      var n := |stored| - 1;
      var s, l := Seeded(stored[..n], now), stored[n];
      if Current(l, now) then
        State(s.leases[l.mac := Lease(l.mac, l.ip.value, l.expires, true)], s.ips[l.ip.value := l.mac])
      else s
  }

  predicate Current(l: Stored, now: nat) { l.active && !(now > l.expires) && l.ip.Some? }

  /** A later running lease has the client, or the address, of the one at `i`. */
  ghost predicate MacAgain(stored: seq<Stored>, now: nat, i: nat)
    requires i < |stored|
  {
    exists j :: i < j < |stored| && Current(stored[j], now) && stored[j].mac == stored[i].mac
  }

  ghost predicate IpAgain(stored: seq<Stored>, now: nat, i: nat)
    requires i < |stored|
  {
    exists j :: i < j < |stored| && Current(stored[j], now) && stored[j].ip == stored[i].ip
  }

  /** A running lease is followed by one of its client exactly if by one of its address. */
  ghost predicate Paired(stored: seq<Stored>, now: nat) {
    forall i :: 0 <= i < |stored| && Current(stored[i], now) ==> (MacAgain(stored, now, i) <==> IpAgain(stored, now, i))
  }

  /** The last running lease of a client is the one in the table. */
  lemma {:induction false} LastOfMac(stored: seq<Stored>, now: nat, m: Mac) returns (i: nat)
    requires m in Seeded(stored, now).leases
    ensures i < |stored| && Current(stored[i], now) && stored[i].mac == m && !MacAgain(stored, now, i)
    ensures var l := Seeded(stored, now).leases[m]; l.mac == m && Some(l.ip) == stored[i].ip
  {
    var n := |stored| - 1;
    if Current(stored[n], now) && stored[n].mac == m {
      i := n;
    } else {
      i := LastOfMac(stored[..n], now, m);
      assert stored[..n][i] == stored[i];
    }
  }

  lemma {:induction false} LastOfIp(stored: seq<Stored>, now: nat, a: Addr) returns (i: nat)
    requires a in Seeded(stored, now).ips
    ensures i < |stored| && Current(stored[i], now) && stored[i].ip == Some(a) && !IpAgain(stored, now, i)
    ensures Seeded(stored, now).ips[a] == stored[i].mac
  {
    var n := |stored| - 1;
    if Current(stored[n], now) && stored[n].ip == Some(a) {
      i := n;
    } else {
      i := LastOfIp(stored[..n], now, a);
      assert stored[..n][i] == stored[i];
    }
  }

  /** Every running lease has its client and its address in the tables. */
  lemma {:induction false} SeededHas(stored: seq<Stored>, now: nat, i: nat)
    requires i < |stored| && Current(stored[i], now)
    ensures stored[i].mac in Seeded(stored, now).leases && stored[i].ip.value in Seeded(stored, now).ips
  {
    var n := |stored| - 1;
    if i < n {
      SeededHas(stored[..n], now, i);
    }
  }

  lemma PairedIsConsistent(stored: seq<Stored>, now: nat)
    requires Paired(stored, now)
    ensures Consistent(Seeded(stored, now))
  {
    var s := Seeded(stored, now);
    forall m | m in s.leases ensures s.leases[m].mac == m && s.leases[m].ip in s.ips && s.ips[s.leases[m].ip] == m {
      var i := LastOfMac(stored, now, m);
      SeededHas(stored, now, i);
      var j := LastOfIp(stored, now, s.leases[m].ip);
      assert j <= i && i <= j;
    }
    forall a | a in s.ips ensures s.ips[a] in s.leases && s.leases[s.ips[a]].ip == a {
      var i := LastOfIp(stored, now, a);
      SeededHas(stored, now, i);
      var j := LastOfMac(stored, now, stored[i].mac);
      assert j <= i && i <= j;
    }
  }

  lemma ConsistentIsPaired(stored: seq<Stored>, now: nat, i: nat)
    requires Consistent(Seeded(stored, now)) && i < |stored| && Current(stored[i], now)
    ensures MacAgain(stored, now, i) <==> IpAgain(stored, now, i)
  {
    var s := Seeded(stored, now);
    SeededHas(stored, now, i);
    var j := LastOfMac(stored, now, stored[i].mac);
    var k := LastOfIp(stored, now, stored[i].ip.value);
    assert i <= j && i <= k;
    if !MacAgain(stored, now, i) {
      assert j == i && stored[k].mac == stored[i].mac;
      assert k == i;
    }
    if !IpAgain(stored, now, i) {
      assert k == i && stored[j].ip == stored[i].ip;
      assert j == i;
    }
  }

  /** Seeding gives inverse tables exactly if the stored leases are paired. */
  lemma SeededConsistent(stored: seq<Stored>, now: nat)
    ensures Consistent(Seeded(stored, now)) <==> Paired(stored, now)
  {
    if Consistent(Seeded(stored, now)) {
      forall i | 0 <= i < |stored| && Current(stored[i], now) ensures MacAgain(stored, now, i) <==> IpAgain(stored, now, i) {
        ConsistentIsPaired(stored, now, i);
      }
    } else if Paired(stored, now) {
      PairedIsConsistent(stored, now);
    }
  }

  /** In particular if one client means one address and conversely. */
  lemma OneToOneIsConsistent(stored: seq<Stored>, now: nat)
    requires forall l, k :: l in stored && k in stored && Current(l, now) && Current(k, now) ==> (l.mac == k.mac <==> l.ip == k.ip)
    ensures Consistent(Seeded(stored, now))
  {
    SeededConsistent(stored, now);
  }

  /** The store holds an address once. */
  ghost predicate AddressesOnce(stored: seq<Stored>) {
    forall i, j :: 0 <= i < j < |stored| && stored[i].ip.Some? ==> stored[i].ip != stored[j].ip
  }

  /** What the store can hold gives inverse tables exactly if no client has two running
      leases. */
  lemma StoredConsistent(stored: seq<Stored>, now: nat)
    requires AddressesOnce(stored)
    ensures Consistent(Seeded(stored, now))
       <==> forall i :: 0 <= i < |stored| && Current(stored[i], now) ==> !MacAgain(stored, now, i)
  {
    SeededConsistent(stored, now);
    assert forall i: nat :: i < |stored| && Current(stored[i], now) ==> !IpAgain(stored, now, i);
  }

  /** One client with two running leases leaves an inconsistent table. */
  lemma TwoLeasesWitness()
    ensures var stored := [Stored("a", Some(8), 5, true), Stored("a", Some(9), 5, true)];
            AddressesOnce(stored) && !Consistent(Seeded(stored, 0))
  {
    var stored := [Stored("a", Some(8), 5, true), Stored("a", Some(9), 5, true)];
    StoredConsistent(stored, 0);
    assert Current(stored[0], 0) && Current(stored[1], 0);
    assert MacAgain(stored, 0, 0);
  }

  // ---------- runs ----------

  datatype Event =
    | Discover(mac: Mac, asked: Option<Addr>)
    | Request(mac: Mac, asked: Option<Addr>)
    | Release(mac: Mac)
    | Expire(now: nat)

  ghost predicate Step(c: Config, s: State, e: Event, s': State, r: Option<Addr>)
    requires c.subnet.Valid()
  {
    match e
    case Discover(mac, asked) => DiscoverGrant(c, s, mac, asked, s', r)
    case Request(mac, asked) => RequestGrant(c, s, mac, asked, s', r)
    case Release(mac) => s' == Released(s, mac) && r == None
    case Expire(now) => s' == Expired(s, now) && r == None
  }

  /** Every step keeps leases and addresses each other's inverse, and hands out no
      address that another client holds. */
  lemma StepKeepsConsistent(c: Config, s: State, e: Event, s': State, r: Option<Addr>)
    requires c.subnet.Valid() && Consistent(s) && Step(c, s, e, s', r)
    ensures Consistent(s')
    ensures r.Some? ==> !LeasedToOther(s, r.value, e.mac) && !LeasedToOther(s', r.value, e.mac)
  {
    match e
    case Release(mac) => ReleasedConsistent(s, mac);
    case Expire(now) => ExpiredConsistent(s, now);
    case _ =>
      if s' != s {
        RecordedConsistent(s, e.mac, r.value);
      }
  }

  lemma RecordedConsistent(s: State, mac: Mac, a: Addr)
    requires Consistent(s) && mac !in s.leases && !LeasedToOther(s, a, mac)
    ensures Consistent(Recorded(s, mac, a))
  {
  }

  lemma ReleasedConsistent(s: State, mac: Mac)
    requires Consistent(s)
    ensures Consistent(Released(s, mac))
  {
  }

  lemma ExpiredConsistent(s: State, now: nat)
    requires Consistent(s)
    ensures Consistent(Expired(s, now))
  {
  }

  /** The states of an allocator from its seeding on, with what each event returned. */
  ghost predicate Run(c: Config, ss: seq<State>, es: seq<Event>, rs: seq<Option<Addr>>)
    requires c.subnet.Valid()
  {
    && |ss| == |es| + 1 == |rs| + 1 && Consistent(ss[0])
    && forall i :: 0 <= i < |es| ==> Step(c, ss[i], es[i], ss[i + 1], rs[i])
  }

  lemma {:induction false} AlwaysConsistent(c: Config, ss: seq<State>, es: seq<Event>, rs: seq<Option<Addr>>, i: nat)
    requires c.subnet.Valid() && Run(c, ss, es, rs) && i < |ss|
    ensures Consistent(ss[i])
  {
    if i > 0 {
      AlwaysConsistent(c, ss, es, rs, i - 1);
      StepKeepsConsistent(c, ss[i - 1], es[i - 1], ss[i], rs[i - 1]);
    }
  }

  /** In every run no two clients hold one address, and no grant of any kind hands out
      an address that another client holds. */
  lemma HeldIsNeverGranted(c: Config, ss: seq<State>, es: seq<Event>, rs: seq<Option<Addr>>, i: nat, m: Mac)
    requires c.subnet.Valid() && Run(c, ss, es, rs) && i < |es| && m in ss[i].leases
    ensures forall k :: k in ss[i].leases && k != m ==> ss[i].leases[k].ip != ss[i].leases[m].ip
    ensures rs[i].Some? && !es[i].Expire? && es[i].mac != m ==> rs[i].value != ss[i].leases[m].ip
  {
    AlwaysConsistent(c, ss, es, rs, i);
    assert Step(c, ss[i], es[i], ss[i + 1], rs[i]);
    StepKeepsConsistent(c, ss[i], es[i], ss[i + 1], rs[i]);
  }

  /** A range grant lasts only until leases are next expired: its expiry is the zero time. */
  lemma RangeGrantIsDropped(c: Config, s: State, mac: Mac, s': State, a: Addr, now: nat)
    requires c.subnet.Valid() && mac !in s.leases && RangeGrant(c, s, mac, s', Some(a)) && now > 0
    ensures mac !in Expired(s', now).leases && a !in Expired(s', now).ips
  {
    assert s'.leases[mac] == Lease(mac, a, 0, true) && Over(s'.leases[mac], now);
  }

  /** A request grant leaves no record: another client's next request for the address is
      granted too, exactly if nobody held it. */
  lemma RequestedIsGrantedAgain(c: Config, s: State, m: Mac, k: Mac, a: Addr, s1: State, s2: State, r: Option<Addr>)
    requires c.subnet.Valid() && m != k && m !in c.reservations && k !in c.reservations
    requires RequestGrant(c, s, m, Some(a), s1, Some(a)) && RequestGrant(c, s1, k, Some(a), s2, r)
    ensures s1 == s && (r == Some(a) <==> a !in s.ips)
  {
  }

  /** An address is registered only by a range grant of it. */
  lemma RegisteredByRange(c: Config, s: State, e: Event, s': State, r: Option<Addr>, a: Addr)
    requires c.subnet.Valid() && Step(c, s, e, s', r) && a in s'.ips && (a !in s.ips || s'.ips[a] != s.ips[a])
    ensures (e.Discover? || e.Request?) && r == Some(a) && s' == Recorded(s, e.mac, a)
  {
  }

  /** The steps between two points of a run at which `a` was granted from the range. */
  ghost predicate RangeGranted(ss: seq<State>, es: seq<Event>, rs: seq<Option<Addr>>, a: Addr, t: nat)
    requires |ss| == |es| + 1 == |rs| + 1 && t < |es|
  {
    (es[t].Discover? || es[t].Request?) && rs[t] == Some(a) && ss[t + 1] == Recorded(ss[t], es[t].mac, a)
  }

  lemma {:induction false} HeldSince(c: Config, ss: seq<State>, es: seq<Event>, rs: seq<Option<Addr>>, a: Addr, i: nat, j: nat)
    requires c.subnet.Valid() && Run(c, ss, es, rs) && i <= j < |ss| && a in ss[j].ips
    ensures || (a in ss[i].ips && ss[i].ips[a] == ss[j].ips[a])
            || exists t: nat :: i <= t < j && RangeGranted(ss, es, rs, a, t)
    decreases j
  {
    if i < j {
      assert Step(c, ss[j - 1], es[j - 1], ss[j], rs[j - 1]);
      if a in ss[j - 1].ips && ss[j].ips[a] == ss[j - 1].ips[a] {
        HeldSince(c, ss, es, rs, a, i, j - 1);
      } else {
        RegisteredByRange(c, ss[j - 1], es[j - 1], ss[j], rs[j - 1], a);
        assert RangeGranted(ss, es, rs, a, j - 1);
      }
    }
  }

  /** In every run, once an address was granted to `m` on request, any later request of
      another client for it is granted exactly if no other client holds it then; and one
      does only if `m` or another held it at the first grant or got it from the range since. */
  lemma RequestedAgainLater(c: Config, ss: seq<State>, es: seq<Event>, rs: seq<Option<Addr>>, a: Addr, i: nat, j: nat)
    requires c.subnet.Valid() && Run(c, ss, es, rs) && i < j < |es|
    requires es[i].Request? && es[i].asked == Some(a) && es[i].mac !in c.reservations && rs[i] == Some(a)
    requires es[j].Request? && es[j].asked == Some(a) && es[j].mac !in c.reservations
    ensures rs[j] == Some(a) <==> !LeasedToOther(ss[j], a, es[j].mac)
    ensures LeasedToOther(ss[j], a, es[j].mac) ==>
              a in ss[i].ips || exists t: nat :: i < t < j && RangeGranted(ss, es, rs, a, t)
  {
    assert Step(c, ss[i], es[i], ss[i + 1], rs[i]) && Step(c, ss[j], es[j], ss[j + 1], rs[j]);
    assert ss[i + 1] == ss[i];
    if LeasedToOther(ss[j], a, es[j].mac) {
      HeldSince(c, ss, es, rs, a, i + 1, j);
    }
  }

  // ---------- reservations and requests ----------

  /** A reservation is kept: as long as no other client holds the address, its owner is
      offered it whatever it asks for, and gets it unless it asks for another. */
  lemma ReservationIsKept(c: Config, s: State, mac: Mac, asked: Option<Addr>, s': State, r: Option<Addr>)
    requires c.subnet.Valid() && mac in c.reservations && !(c.reservations[mac] in s.ips && s.ips[c.reservations[mac]] != mac)
    ensures DiscoverGrant(c, s, mac, asked, s', r) ==> r == Some(c.reservations[mac]) && s' == s
    ensures RequestGrant(c, s, mac, asked, s', r) ==>
              s' == s && r == if asked == None || asked == Some(c.reservations[mac]) then Some(c.reservations[mac]) else None
  {
  }

  /** A request is granted as asked or not at all. */
  lemma RequestIsExact(c: Config, s: State, mac: Mac, a: Addr, s': State, r: Option<Addr>)
    requires c.subnet.Valid() && RequestGrant(c, s, mac, Some(a), s', r)
    ensures s' == s && (r == None || r == Some(a))
    ensures mac !in c.reservations ==> (r == Some(a) <==>
              && Contains(c.subnet, a) && a != Network(c.subnet) && a != Highest(c.subnet)
              && (a in s.ips ==> s.ips[a] == mac) && (forall m :: m in c.reservations ==> c.reservations[m] != a))
    ensures mac in c.reservations ==> (r == Some(a) <==> a == c.reservations[mac] && (a in s.ips ==> s.ips[a] == mac))
  {
  }

  /** Where a granted address comes from: it is reserved for the client, or it is the one
      the client asked for or already holds, or the walk found it. Unless the client already
      held it, it is reserved for no other. */
  lemma GrantsAreProper(c: Config, s: State, mac: Mac, asked: Option<Addr>, s': State, a: Addr)
    requires c.subnet.Valid()
    requires DiscoverGrant(c, s, mac, asked, s', Some(a)) || RequestGrant(c, s, mac, asked, s', Some(a))
    ensures || (mac in c.reservations && c.reservations[mac] == a && s' == s)
            || (mac in s.leases && s.leases[mac].ip == a && s' == s)
            || (forall m :: m in c.reservations && c.reservations[m] == a ==> m == mac)
    ensures || (mac in c.reservations && c.reservations[mac] == a)
            || (mac in s.leases && s.leases[mac].ip == a)
            || (asked == Some(a) && s' == s && Contains(c.subnet, a) && a != Network(c.subnet) && a != Highest(c.subnet))
            || (mac !in s.leases && s' == State(s.leases[mac := Lease(mac, a, 0, true)], s.ips[a := mac]) && a != c.gateway
                && a != Network(c.subnet) && a != Highest(c.subnet))
  {
  }

  /** A client that holds an address, has no reservation and asks for nothing keeps it. */
  lemma HolderKeepsAddress(c: Config, s: State, mac: Mac, s': State, r: Option<Addr>)
    requires c.subnet.Valid() && mac in s.leases && mac !in c.reservations
    requires DiscoverGrant(c, s, mac, None, s', r) || RequestGrant(c, s, mac, None, s', r)
    ensures s' == s && r == Some(s.leases[mac].ip)
  {
  }

  /** What release and expiry leave: every other lease with its address, and nothing of
      those that go. */
  lemma LeavesOthers(s: State, mac: Mac, now: nat, m: Mac)
    requires Consistent(s) && m in s.leases
    ensures m in Released(s, mac).leases <==> m != mac
    ensures s.leases[m].ip in Released(s, mac).ips <==> m != mac
    ensures m in Expired(s, now).leases <==> now <= s.leases[m].expires
    ensures s.leases[m].ip in Expired(s, now).ips <==> now <= s.leases[m].expires
    ensures m != mac ==> Released(s, mac).leases[m] == s.leases[m]
    ensures now <= s.leases[m].expires ==> Expired(s, now).leases[m] == s.leases[m]
  {
  }

  /** Which leases an allocator starts with: for a client, its last running lease. */
  lemma SeededIsLast(stored: seq<Stored>, now: nat, m: Mac)
    ensures m in Seeded(stored, now).leases <==> exists i :: 0 <= i < |stored| && Current(stored[i], now) && stored[i].mac == m
    ensures m in Seeded(stored, now).leases ==>
              exists i :: 0 <= i < |stored| && stored[i].mac == m && stored[i].active && now <= stored[i].expires
                       && !MacAgain(stored, now, i) && stored[i].ip == Some(Seeded(stored, now).leases[m].ip)
                       && Seeded(stored, now).leases[m] == Lease(m, stored[i].ip.value, stored[i].expires, true)
  {
    if m in Seeded(stored, now).leases {
      var i := LastOfMac(stored, now, m);
      LastLease(stored, now, i);
    }
    forall i | 0 <= i < |stored| && Current(stored[i], now) && stored[i].mac == m ensures m in Seeded(stored, now).leases {
      SeededHas(stored, now, i);
    }
  }

  lemma {:induction false} LastLease(stored: seq<Stored>, now: nat, i: nat)
    requires i < |stored| && Current(stored[i], now) && !MacAgain(stored, now, i)
    ensures var s := Seeded(stored, now);
            stored[i].mac in s.leases && s.leases[stored[i].mac] == Lease(stored[i].mac, stored[i].ip.value, stored[i].expires, true)
  {
    var n := |stored| - 1;
    if i < n {
      assert !MacAgain(stored[..n], now, i);
      LastLease(stored[..n], now, i);
      assert Current(stored[n], now) ==> stored[n].mac != stored[i].mac;
    }
  }
}
