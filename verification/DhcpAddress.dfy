/** IPv4 networks as the address pool computes with them: byte by byte. */
module DhcpAddress {
  import opened Dns
  import opened DhcpPacket

  type Addr = U32

  datatype Prefix = Prefix(addr: Addr, bits: nat) {
    predicate Valid() { bits <= 32 }
  }

  // ---------- bytes ----------

  function As4(a: Addr): (b: Bytes)
    ensures |b| == 4
  {
    Big32(a)
  }

  function From4(b: Bytes): Addr
    requires |b| == 4
  {
    FromBig32(b)
  }

  lemma As4Of(b: Bytes)
    requires |b| == 4
    ensures As4(From4(b)) == b
  {
    var n := From4(b);
    assert n / 0x100 == b[0] as int * 0x1_0000 + b[1] as int * 0x100 + b[2];
    assert n / 0x1_0000 == b[0] as int * 0x100 + b[1];
  }

  // ---------- the next address ----------

  const LIMIT := 0x1_0000_0000

  function Next(a: Addr): Addr { if a == 0 || a == LIMIT - 1 then 0 else a + 1 }

  /** One more, in the eight bits of a byte. */
  function Bump(b: Byte): Byte { if b == 255 then 0 else b + 1 }

  method NextIP(ip: Addr) returns (r: Addr)
    ensures r == Next(ip)
  {
    var b := As4(ip);
    BigRoundTrip(0, ip);
    if b == [0, 0, 0, 0] {
      return ip;
    }
    b := b[3 := Bump(b[3])];
    if b[3] == 0 {
      b := b[2 := Bump(b[2])];
      if b[2] == 0 {
        b := b[1 := Bump(b[1])];
        if b[1] == 0 {
          b := b[0 := Bump(b[0])];
        }
      }
    }
    r := From4(b);
  }

  // ---------- networks ----------

  /** The value of the `n` low bits of a byte. */
  function LowBits(b: Byte, n: nat): (r: Byte)
    requires n <= 8
    ensures r <= b
  {
    match n
    case 0 => 0
    case 1 => b % 2
    case 2 => b % 4
    case 3 => b % 8
    case 4 => b % 16
    case 5 => b % 32
    case 6 => b % 64
    case 7 => b % 128
    case 8 => b
  }

  /** A byte with its `n` low bits cleared, or set. */
  function Clear(b: Byte, n: nat): Byte
    requires n <= 8
  {
    b - LowBits(b, n)
  }

  function Set(b: Byte, n: nat): Byte
    requires n <= 8
  {
    var r := b - LowBits(b, n) + LowBits(255, n);
    assert r < 256 by {
      SetFits(b, n);
    }
    r
  }

  lemma SetFits(b: Byte, n: nat)
    requires n <= 8
    ensures b <= b - LowBits(b, n) + LowBits(255, n) < 256
  {
  }

  /** Bytes that agree above the `n` low bits are those between the two. */
  lemma ClearInterval(x: Byte, y: Byte, n: nat)
    requires n <= 8
    ensures Clear(x, n) == Clear(y, n) <==> Clear(y, n) <= x <= Set(y, n)
  {
    match n
    case 0 => SameBlock(x, y, 1);
    case 1 => SameBlock(x, y, 2);
    case 2 => SameBlock(x, y, 4);
    case 3 => SameBlock(x, y, 8);
    case 4 => SameBlock(x, y, 16);
    case 5 => SameBlock(x, y, 32);
    case 6 => SameBlock(x, y, 64);
    case 7 => SameBlock(x, y, 128);
    case 8 => SameBlock(x, y, 256);
  }

  lemma SameBlock(a: int, b: int, d: int)
    requires d > 0
    ensures a - a % d == b - b % d <==> b - b % d <= a <= b - b % d + d - 1
  {
    assert a == a / d * d + a % d && b == b / d * d + b % d;
    Blocks(b / d, b / d, a / d, a % d, d);
    SameMultiple(a / d, b / d, d);
  }

  lemma SameMultiple(q: int, r: int, d: int)
    requires d > 0
    ensures q * d == r * d <==> q == r
  {
    if q < r {
      TimesKeepsOrder(q + 1, r, d);
    } else if r < q {
      TimesKeepsOrder(r + 1, q, d);
    }
  }

  /** `x` starts with the first bits of `y`. */
  predicate SameStart(bits: nat, x: Bytes, y: Bytes)
    requires bits <= 32 && |x| == |y| == 4
  {
    var k := bits / 8;
    x[..k] == y[..k] && (k < 4 ==> Clear(x[k], 8 - bits % 8) == Clear(y[k], 8 - bits % 8))
  }

  predicate Contains(p: Prefix, a: Addr)
    requires p.Valid()
  {
    SameStart(p.bits, As4(a), As4(p.addr))
  }

  function Fill(b: Bytes, k: nat, middle: Byte, rest: Byte): (r: Bytes)
    requires |b| == 4 && k < 4
    ensures |r| == 4
  {
    seq(4, i requires 0 <= i < 4 => if i < k then b[i] else if i == k then middle else rest)
  }

  function LowestBytes(bits: nat, b: Bytes): (r: Bytes)
    requires bits <= 32 && |b| == 4
    ensures |r| == 4
  {
    var k := bits / 8;
    if k == 4 then b else Fill(b, k, Clear(b[k], 8 - bits % 8), 0)
  }

  function HighestBytes(bits: nat, b: Bytes): (r: Bytes)
    requires bits <= 32 && |b| == 4
    ensures |r| == 4
  {
    var k := bits / 8;
    if k == 4 then b else Fill(b, k, Set(b[k], 8 - bits % 8), 255)
  }

  function Lowest(p: Prefix): Addr requires p.Valid() { From4(LowestBytes(p.bits, As4(p.addr))) }
  function Highest(p: Prefix): Addr requires p.Valid() { From4(HighestBytes(p.bits, As4(p.addr))) }

  /** A network is the interval from its lowest to its highest address. */
  lemma ContainsInterval(p: Prefix, a: Addr)
    requires p.Valid()
    ensures Contains(p, a) <==> Lowest(p) <= a <= Highest(p)
  {
    BigRoundTrip(0, a);
    SameStartInterval(p.bits, As4(a), As4(p.addr));
  }

  lemma SameStartInterval(bits: nat, x: Bytes, y: Bytes)
    requires bits <= 32 && |x| == |y| == 4
    ensures SameStart(bits, x, y) <==> From4(LowestBytes(bits, y)) <= From4(x) <= From4(HighestBytes(bits, y))
  {
    var k := bits / 8;
    if k == 4 {
      As4Of(x);
      As4Of(y);
      assert x[..4] == x && y[..4] == y;
    } else {
      ClearInterval(x[k], y[k], 8 - bits % 8);
      Interval(x, y, k, Clear(y[k], 8 - bits % 8), Set(y[k], 8 - bits % 8));
    }
  }

  /** Comparing numbers is comparing their quotients when the bounds are whole blocks. */
  lemma Blocks(lo: int, hi: int, x: int, low: int, c: int)
    requires 0 <= low < c
    ensures lo * c <= x * c + low <= hi * c + c - 1 <==> lo <= x <= hi
  {
    if lo > x {
      TimesKeepsOrder(x + 1, lo, c);
    } else if x > hi {
      TimesKeepsOrder(hi + 1, x, c);
    } else {
      TimesKeepsOrder(lo, x, c);
      TimesKeepsOrder(x, hi, c);
    }
  }

  lemma {:induction false} TimesKeepsOrder(a: int, b: int, c: nat)
    requires a <= b
    ensures a * c <= b * c
  {
    if c > 0 {
      TimesKeepsOrder(a, b, c - 1);
    }
  }

  lemma Digit(h: int, d: Byte, g: int, lo: Byte, hi: Byte)
    ensures g * 256 + lo <= h * 256 + d <= g * 256 + hi <==> h == g && lo <= d <= hi
  {
  }

  function Scaled(head: int, digit: Byte, c: int): int { (head * 256 + digit) * c }

  lemma Digits(v: int, h: int, d: Byte, low: int, from: int, to: int, g: int, lo: Byte, hi: Byte, c: int)
    requires 0 <= low < c && v == Scaled(h, d, c) + low && from == Scaled(g, lo, c) && to == Scaled(g, hi, c)
    ensures from <= v <= to + c - 1 <==> h == g && lo <= d <= hi
  {
    Blocks(g * 256 + lo, g * 256 + hi, h * 256 + d, low, c);
    Digit(h, d, g, lo, hi);
  }

  /** The number that the first `k` bytes spell. */
  function Head(b: Bytes, k: nat): int
    requires k <= |b|
  {
    if k == 0 then 0 else Head(b, k - 1) * 256 + b[k - 1]
  }

  lemma {:induction false} SameHead(x: Bytes, y: Bytes, k: nat)
    requires k <= |x| && k <= |y|
    ensures Head(x, k) == Head(y, k) <==> x[..k] == y[..k]
  {
    if k > 0 {
      SameHead(x, y, k - 1);
      assert x[..k] == x[..k - 1] + [x[k - 1]] && y[..k] == y[..k - 1] + [y[k - 1]];
    }
  }

  /** What one step in byte `k` is worth. */
  function Worth(k: nat): int requires k < 4 { if k == 0 then 0x100_0000 else if k == 1 then 0x1_0000 else if k == 2 then 0x100 else 1 }

  lemma FilledValue(y: Bytes, k: nat, middle: Byte)
    requires |y| == 4 && k < 4
    ensures From4(Fill(y, k, middle, 0)) == Scaled(Head(y, k), middle, Worth(k))
    ensures From4(Fill(y, k, middle, 255)) == Scaled(Head(y, k), middle, Worth(k)) + Worth(k) - 1
  {
    assert Head(y, 0) == 0 && Head(y, 1) == y[0] && Head(y, 2) == y[0] as int * 256 + y[1];
    assert Head(y, 3) == (y[0] as int * 256 + y[1]) * 256 + y[2];
    assert k == 0 || k == 1 || k == 2 || k == 3;
  }

  function Below(x: Bytes, k: nat): int
    requires |x| == 4 && k < 4
  {
    if k == 0 then x[1] as int * 0x1_0000 + x[2] as int * 0x100 + x[3]
    else if k == 1 then x[2] as int * 0x100 + x[3]
    else if k == 2 then x[3]
    else 0
  }

  lemma ValueAround(x: Bytes, k: nat)
    requires |x| == 4 && k < 4
    ensures From4(x) == Scaled(Head(x, k), x[k], Worth(k)) + Below(x, k) && 0 <= Below(x, k) < Worth(k)
  {
    assert Head(x, 0) == 0 && Head(x, 1) == x[0] && Head(x, 2) == x[0] as int * 256 + x[1];
    assert Head(x, 3) == (x[0] as int * 256 + x[1]) * 256 + x[2];
    assert k == 0 || k == 1 || k == 2 || k == 3;
  }

  lemma Interval(x: Bytes, y: Bytes, k: nat, lo: Byte, hi: Byte)
    requires |x| == |y| == 4 && k < 4
    ensures x[..k] == y[..k] && lo <= x[k] <= hi <==> From4(Fill(y, k, lo, 0)) <= From4(x) <= From4(Fill(y, k, hi, 255))
  {
    FilledValue(y, k, lo);
    FilledValue(y, k, hi);
    ValueAround(x, k);
    Digits(From4(x), Head(x, k), x[k], Below(x, k), Scaled(Head(y, k), lo, Worth(k)), Scaled(Head(y, k), hi, Worth(k)), Head(y, k), lo, hi, Worth(k));
    SameHead(x, y, k);
  }

  // ---------- network and broadcast addresses ----------

  /** The network address the pool uses; at a byte boundary one byte is left as it is. */
  function Network(p: Prefix): Addr
    requires p.Valid()
  {
    var k, r, b := p.bits / 8, p.bits % 8, As4(p.addr);
    From4(if k == 4 then b else Fill(b, k, if r != 0 then Clear(b[k], 8 - r) else b[k], 0))
  }

  method NetworkAddr(p: Prefix) returns (a: Addr)
    requires p.Valid()
    ensures a == Network(p)
  {
    var b := As4(p.addr);
    ghost var b0, k := b, p.bits / 8;
    BigRoundTrip(0, p.addr);
    if p.bits % 8 != 0 {
      b := b[p.bits / 8 := Clear(b[p.bits / 8], 8 - p.bits % 8)];
    }
    ghost var b1 := b;
    var i := p.bits / 8 + 1;
    while i < 4
      invariant k < i <= 5 && (k < 4 ==> i <= 4) && |b| == 4
      invariant forall j :: 0 <= j < 4 ==> b[j] == if k < j < i then 0 else b1[j]
    {
      b := b[i := 0];
      i := i + 1;
    }
    if k < 4 {
      assert b == Fill(b0, k, if p.bits % 8 != 0 then Clear(b0[k], 8 - p.bits % 8) else b0[k], 0);
    }
    a := From4(b);
  }

  method BroadcastAddr(p: Prefix) returns (a: Addr)
    requires p.Valid()
    ensures a == Highest(p)
  {
    var b := As4(p.addr);
    ghost var b0, k := b, p.bits / 8;
    BigRoundTrip(0, p.addr);
    var i := p.bits / 8;
    while i < 4
      invariant k <= i <= 4 && |b| == 4
      invariant forall j :: 0 <= j < 4 ==> b[j] == if k <= j < i then 255 else b0[j]
    {
      b := b[i := 255];
      i := i + 1;
    }
    if p.bits % 8 != 0 {
      b := b[p.bits / 8 := Set(As4(p.addr)[p.bits / 8], 8 - p.bits % 8)];
    }
    if k < 4 {
      assert b == Fill(b0, k, Set(b0[k], 8 - p.bits % 8), 255);
    }
    a := From4(b);
  }

  /** The pool's network address is the network's lowest address exactly when the prefix
      ends inside a byte or the byte after it is zero; it always lies in the network. */
  lemma NetworkIsLowest(p: Prefix)
    requires p.Valid()
    ensures Network(p) == Lowest(p) <==> p.bits % 8 != 0 || p.bits == 32 || As4(p.addr)[p.bits / 8] == 0
    ensures Lowest(p) <= Network(p) <= p.addr <= Highest(p)
  {
    var k, b := p.bits / 8, As4(p.addr);
    BigRoundTrip(0, p.addr);
    if k < 4 {
      FilledValue(b, k, Clear(b[k], 8 - p.bits % 8));
      FilledValue(b, k, b[k]);
      ValueAround(b, k);
      ContainsInterval(p, p.addr);
      Blocks(Head(b, k) * 256 + Clear(b[k], 8 - p.bits % 8), Head(b, k) * 256 + b[k], Head(b, k) * 256 + b[k], 0, Worth(k));
    }
  }
}
