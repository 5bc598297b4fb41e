/** The DHCPv4 wire format: section 2 of RFC 2131, options as in section 2 of RFC 2132. */
module DhcpPacket {
  import opened Dns

  type Byte = b: int | 0 <= b < 256
  type Bytes = seq<Byte>
  type Options = map<Byte, Bytes>

  const PAD: Byte := 0
  const END: Byte := 255
  const HEADER := 236
  const MIN_LENGTH := 300
  const COOKIE: Bytes := [99, 130, 83, 99]

  datatype Parsed<T> = Ok(value: T) | TooShort | HardwareTooLong | NoCookie | Truncated(code: Byte)

  // ---------- options ----------

  /** Reads the options in `data` on top of those already read. */
  function OptionsOf(data: Bytes, opts: Options): Parsed<Options> {
    if data == [] || data[0] == END then Ok(opts)
    else if data[0] == PAD then OptionsOf(data[1..], opts)
    else if |data| < 2 || 2 + data[1] > |data| then Truncated(data[0])
    else OptionsOf(data[2 + data[1]..], opts[data[0] := data[2..2 + data[1]]])
  }

  method ParseOptions(data: Bytes) returns (r: Parsed<Options>)
    ensures r == OptionsOf(data, map[])
    ensures r.Ok? ==> Encodable(r.value)
  {
    ParsedIsEncodable(data, map[]);
    var opts: Options := map[];
    var i := 0;
    while i < |data|
      invariant 0 <= i <= |data|
      invariant OptionsOf(data[i..], opts) == OptionsOf(data, map[])
    {
      if data[i] == END {
        break;
      }
      if data[i] == PAD {
        assert data[i..][1..] == data[i + 1..];
        i := i + 1;
        continue;
      }
      if i + 1 >= |data| {
        return Truncated(data[i]);
      }
      var code, length := data[i], data[i + 1];
      ghost var rest := data[i..];
      i := i + 2;
      if i + length > |data| {
        return Truncated(code);
      }
      assert rest[2..2 + length] == data[i..i + length] && rest[2 + length..] == data[i + length..];
      opts := opts[code := data[i..i + length]];
      i := i + length;
    }
    return Ok(opts);
  }

  /** One option on the wire; the length is cut to a byte. */
  function Encoded(code: Byte, value: Bytes): Bytes { [code, |value| % 256] + value }

  function Emit(order: seq<Byte>, opts: Options): Bytes
    requires forall c :: c in order ==> c in opts
  {
    if order == [] then []
    else
      var n := |order| - 1;
      Emit(order[..n], opts) + Encoded(order[n], opts[order[n]])
  }

  lemma {:induction false} EmitOneMore(order: seq<Byte>, code: Byte, opts: Options)
    requires code in opts && forall c :: c in order ==> c in opts
    ensures Emit(order + [code], opts) == Emit(order, opts) + Encoded(code, opts[code])
  {
    assert (order + [code])[..|order|] == order;
  }

  /** `order` visits every option exactly once. */
  ghost predicate Enumerates(order: seq<Byte>, opts: Options) {
    && (forall c :: c in order <==> c in opts)
    && (forall i, j :: 0 <= i < j < |order| ==> order[i] != order[j])
  }

  /** The bytes written for `opts` when they are visited in `order`. */
  function OptionBytes(order: seq<Byte>, opts: Options): Bytes
    requires forall c :: c in order ==> c in opts
  {
    Emit(order, opts) + [END]
  }

  ghost predicate Emitted(buf: Bytes, opts: Options) {
    exists order :: Enumerates(order, opts) && buf == OptionBytes(order, opts)
  }

  method MarshalOptions(opts: Options) returns (buf: Bytes)
    ensures Emitted(buf, opts)
  {
    if |opts| == 0 {
      assert Enumerates([], opts) && OptionBytes([], opts) == [END];
      return [END];
    }
    buf := [];
    var todo := opts.Keys;
    ghost var order: seq<Byte> := [];
    while todo != {}
      invariant todo <= opts.Keys
      invariant forall c :: c in order <==> c in opts && c !in todo
      invariant forall i, j :: 0 <= i < j < |order| ==> order[i] != order[j]
      invariant buf == Emit(order, opts)
      decreases todo
    {
      var code: Byte :| code in todo;
      EmitOneMore(order, code, opts);
      buf := buf + Encoded(code, opts[code]);
      order := order + [code];
      todo := todo - {code};
    }
    assert Enumerates(order, opts);
    buf := buf + [END];
  }

  /** What the format can carry: neither of the two bare codes, no value over 255 bytes. */
  predicate Encodable(opts: Options) {
    forall c :: c in opts ==> c != PAD && c != END && |opts[c]| <= 255
  }

  /** Whatever is read can be written. */
  lemma {:induction false} ParsedIsEncodable(data: Bytes, opts: Options)
    requires Encodable(opts)
    ensures OptionsOf(data, opts).Ok? ==> Encodable(OptionsOf(data, opts).value)
    decreases |data|
  {
    if data == [] || data[0] == END {
    } else if data[0] == PAD {
      ParsedIsEncodable(data[1..], opts);
    } else if |data| >= 2 && 2 + data[1] <= |data| {
      ParsedIsEncodable(data[2 + data[1]..], opts[data[0] := data[2..2 + data[1]]]);
    }
  }

  lemma {:induction false} OneOption(code: Byte, value: Bytes, rest: Bytes, opts: Options)
    requires code != PAD && code != END && |value| <= 255
    ensures OptionsOf(Encoded(code, value) + rest, opts) == OptionsOf(rest, opts[code := value])
  {
    var data := Encoded(code, value) + rest;
    assert data[0] == code && data[1] == |value|;
    assert data[2..2 + |value|] == value && data[2 + |value|..] == rest;
  }

  function Picked(order: seq<Byte>, opts: Options): Options
    requires forall c :: c in order ==> c in opts
  {
    map c | c in order :: opts[c]
  }

  lemma PickedOneMore(order: seq<Byte>, code: Byte, opts: Options, before: Options)
    requires code in opts && forall c :: c in order ==> c in opts
    ensures (before + Picked(order, opts))[code := opts[code]] == before + Picked(order + [code], opts)
  {
  }

  lemma Regroup(a: Bytes, b: Bytes, c: Bytes)
    ensures (a + b) + c == a + (b + c)
  {
  }

  lemma {:induction false} EmittedOptions(order: seq<Byte>, opts: Options, rest: Bytes, before: Options)
    requires Encodable(opts) && forall c :: c in order ==> c in opts
    ensures OptionsOf(Emit(order, opts) + rest, before) == OptionsOf(rest, before + Picked(order, opts))
  {
    if order == [] {
      assert Emit(order, opts) + rest == rest && before + Picked(order, opts) == before;
    } else {
      var n := |order| - 1;
      var c, init := order[n], order[..n];
      var one := Encoded(c, opts[c]);
      EmittedOptions(init, opts, one + rest, before);
      OneOption(c, opts[c], rest, before + Picked(init, opts));
      PickedOneMore(init, c, opts, before);
      assert order == init + [c];
      EmitOneMore(init, c, opts);
      Regroup(Emit(init, opts), one, rest);
    }
  }

  lemma {:induction false} EncodableComeBack(opts: Options, order: seq<Byte>, tail: Bytes)
    requires Enumerates(order, opts) && Encodable(opts)
    ensures OptionsOf(OptionBytes(order, opts) + tail, map[]) == Ok(opts)
  {
    EmittedOptions(order, opts, [END] + tail, map[]);
    Regroup(Emit(order, opts), [END], tail);
    assert map[] + Picked(order, opts) == opts;
  }

  /** Reading undoes writing, in whatever order the options were written and whatever
      follows their end, exactly when the format can carry them. */
  lemma {:induction false} OptionsRoundTrip(opts: Options, order: seq<Byte>, tail: Bytes)
    requires Enumerates(order, opts)
    ensures OptionsOf(OptionBytes(order, opts) + tail, map[]) == Ok(opts) <==> Encodable(opts)
  {
    if Encodable(opts) {
      EncodableComeBack(opts, order, tail);
    } else {
      ParsedIsEncodable(OptionBytes(order, opts) + tail, map[]);
    }
  }

  // ---------- packets ----------

  type U16 = n: int | 0 <= n < 0x1_0000

  datatype Packet = Packet(
    op: Byte, htype: Byte, hlen: Byte, hops: Byte, xid: U32, secs: U16, flags: U16,
    ciaddr: Bytes, yiaddr: Bytes, siaddr: Bytes, giaddr: Bytes, chaddr: Bytes,
    sname: Bytes, file: Bytes, options: Options, relay: Bytes)

  function Big16(n: U16): Bytes { [n / 0x100, n % 0x100] }
  function Big32(n: U32): Bytes { [n / 0x100_0000, n / 0x1_0000 % 0x100, n / 0x100 % 0x100, n % 0x100] }

  function FromBig16(b: Bytes): U16 requires |b| == 2 { b[0] as int * 0x100 + b[1] }
  function FromBig32(b: Bytes): U32 requires |b| == 4 {
    b[0] as int * 0x100_0000 + b[1] as int * 0x1_0000 + b[2] as int * 0x100 + b[3]
  }

  lemma BigRoundTrip(n: U16, m: U32)
    ensures FromBig16(Big16(n)) == n && FromBig32(Big32(m)) == m
  {
    var a, b, c := m / 0x100, m / 0x1_0000, m / 0x100_0000;
    assert b == a / 0x100 && c == b / 0x100;
  }

  function Zeros(n: nat): (z: Bytes)
    ensures |z| == n
  {
    seq(n, i => 0)
  }

  /** The four bytes of an address: itself, the tail of its mapped form, or none. */
  function To4(ip: Bytes): Bytes {
    if |ip| == 4 then ip
    else if |ip| == 16 && ip[..12] == Zeros(10) + [255, 255] then ip[12..]
    else []
  }

  /** `buf` with `src` copied over it from position `at`. */
  function Put(buf: Bytes, at: nat, src: Bytes): (r: Bytes)
    requires at + |src| <= |buf|
    ensures |r| == |buf|
  {
    buf[..at] + src + buf[at + |src|..]
  }

  function HardwareLength(p: Packet): Byte { if |p.chaddr| > 16 then 16 else |p.chaddr| }

  /** `src` in a field of a given width. */
  function Padded(src: Bytes, width: nat): (b: Bytes)
    requires |src| <= width
    ensures |b| == width
  {
    if |src| == width then src else src + Zeros(width - |src|)
  }

  /** The numbers at the head of a packet, with the hardware length as given. */
  function Numbers(p: Packet, hlen: Byte): (b: Bytes)
    ensures |b| == 12
  {
    [p.op, p.htype, hlen, p.hops] + Big32(p.xid) + Big16(p.secs) + Big16(p.flags)
  }

  /** An address field: four bytes, zero when the address has no such form. */
  function Field(ip: Bytes): (b: Bytes)
    ensures |b| == 4
  {
    Padded(To4(ip), 4)
  }

  function Addresses(p: Packet): (b: Bytes)
    ensures |b| == 16
  {
    Field(p.ciaddr) + Field(p.yiaddr) + Field(p.siaddr) + Field(p.giaddr)
  }

  function Hardware(p: Packet): (b: Bytes)
    ensures |b| == 16
  {
    Padded(p.chaddr[..HardwareLength(p)], 16)
  }

  /** The header a packet should have: fixed fields, and no names. */
  function Header(p: Packet): (b: Bytes)
    ensures |b| == HEADER
  {
    Numbers(p, HardwareLength(p)) + Addresses(p) + Hardware(p) + Zeros(192)
  }

  ghost predicate Wire(buf: Bytes, p: Packet) {
    exists options, pad: nat ::
      && Emitted(options, p.options)
      && |buf| >= MIN_LENGTH && (pad == 0 || |buf| == MIN_LENGTH)
      && buf == Header(p) + COOKIE + options + Zeros(pad)
  }

  lemma PutOneMore(buf: Bytes, at: nat, src: Bytes, i: nat)
    requires at + |src| <= |buf| && i < |src|
    ensures Put(buf, at, src[..i])[at + i := src[i]] == Put(buf, at, src[..i + 1])
  {
    assert src[..i + 1] == src[..i] + [src[i]];
  }

  method CopyInto(buf: array<Byte>, at: nat, src: Bytes)
    requires at + |src| <= buf.Length
    modifies buf
    ensures buf[..] == Put(old(buf[..]), at, src)
  {
    for i := 0 to |src|
      invariant buf[..] == Put(old(buf[..]), at, src[..i])
    {
      PutOneMore(old(buf[..]), at, src, i);
      buf[at + i] := src[i];
    }
    assert src[..|src|] == src;
  }

  /** `done` is laid down and the rest of the buffer is untouched. */
  ghost predicate Filled(buf: array<Byte>, done: Bytes)
    reads buf
  {
    |done| <= buf.Length && buf[..] == done + Zeros(buf.Length - |done|)
  }

  /** Copying into the untouched part fills the next field. */
  lemma PutNext(done: Bytes, left: nat, src: Bytes, width: nat)
    requires |src| <= width <= left
    ensures Put(done + Zeros(left), |done|, src) == done + Padded(src, width) + Zeros(left - width)
  {
  }

  method FillNext(buf: array<Byte>, ghost done: Bytes, at: nat, src: Bytes, ghost width: nat)
    requires |done| == at && |src| <= width && at + width <= buf.Length
    requires Filled(buf, done)
    modifies buf
    ensures Filled(buf, done + Padded(src, width))
  {
    CopyInto(buf, at, src);
    PutNext(done, buf.Length - at, src, width);
  }

  method FillNumbers(buf: array<Byte>, p: Packet)
    requires buf.Length == HEADER && Filled(buf, [])
    modifies buf
    ensures Filled(buf, Numbers(p, p.hlen))
  {
    ghost var first := [p.op, p.htype, p.hlen, p.hops];
    FillNext(buf, [], 0, [p.op, p.htype, p.hlen, p.hops], 4);
    assert [] + first == first;
    FillNext(buf, first, 4, Big32(p.xid), 4);
    FillNext(buf, first + Big32(p.xid), 8, Big16(p.secs), 2);
    FillNext(buf, first + Big32(p.xid) + Big16(p.secs), 10, Big16(p.flags), 2);
  }

  method FillAddresses(buf: array<Byte>, ghost done: Bytes, p: Packet)
    requires buf.Length == HEADER && |done| == 12 && Filled(buf, done)
    modifies buf
    ensures Filled(buf, done + Addresses(p))
  {
    FillNext(buf, done, 12, To4(p.ciaddr), 4);
    ghost var done1 := done + Field(p.ciaddr);
    FillNext(buf, done1, 16, To4(p.yiaddr), 4);
    ghost var done2 := done1 + Field(p.yiaddr);
    FillNext(buf, done2, 20, To4(p.siaddr), 4);
    ghost var done3 := done2 + Field(p.siaddr);
    FillNext(buf, done3, 24, To4(p.giaddr), 4);
    assert done3 + Field(p.giaddr) == done + Addresses(p);
  }

  method SetHardwareLength(buf: array<Byte>, ghost p: Packet, length: Byte)
    requires buf.Length == HEADER && Filled(buf, Numbers(p, p.hlen) + Addresses(p))
    modifies buf
    ensures Filled(buf, Numbers(p, length) + Addresses(p))
  {
    buf[2] := length;
  }

  method Pad(prefix: Bytes) returns (out: Bytes)
    ensures exists pad: nat :: out == prefix + Zeros(pad) && |out| >= MIN_LENGTH && (pad == 0 || |out| == MIN_LENGTH)
  {
    out := prefix;
    ghost var pad: nat := 0;
    while |out| < MIN_LENGTH
      invariant out == prefix + Zeros(pad)
      invariant pad == 0 || |out| <= MIN_LENGTH
    {
      out := out + [PAD];
      pad := pad + 1;
    }
  }

  method MarshalHeader(p: Packet) returns (out: Bytes)
    ensures out == Header(p)
  {
    var buf := new Byte[HEADER](i => 0);
    FillNumbers(buf, p);
    FillAddresses(buf, Numbers(p, p.hlen), p);
    var length: Byte := if |p.chaddr| > 16 then 16 else |p.chaddr|;
    SetHardwareLength(buf, p, length);
    FillNext(buf, Numbers(p, length) + Addresses(p), 28, p.chaddr[..length], 16);
    out := buf[..];
  }

  method Marshal(p: Packet) returns (out: Bytes)
    ensures Wire(out, p)
  {
    out := MarshalHeader(p);
    var options := MarshalOptions(p.options);
    out := Pad(out + COOKIE + options);
  }

  // ---------- reading packets ----------

  /** The bytes before the first zero. */
  function UntilZero(raw: Bytes): Bytes {
    if raw == [] || raw[0] == 0 then [] else [raw[0]] + UntilZero(raw[1..])
  }

  /** Where the first zero is, or -1. */
  method FindNul(raw: Bytes) returns (at: int)
    ensures -1 <= at < |raw|
    ensures at >= 0 ==> raw[at] == 0 && forall i :: 0 <= i < at ==> raw[i] != 0
    ensures at == -1 ==> forall i :: 0 <= i < |raw| ==> raw[i] != 0
  {
    for i := 0 to |raw|
      invariant forall j :: 0 <= j < i ==> raw[j] != 0
    {
      if raw[i] == 0 {
        return i;
      }
    }
    return -1;
  }

  lemma {:induction false} UntilZeroIs(raw: Bytes, n: nat)
    requires n <= |raw| && (forall i :: 0 <= i < n ==> raw[i] != 0) && (n < |raw| ==> raw[n] == 0)
    ensures UntilZero(raw) == raw[..n]
  {
    if n > 0 {
      UntilZeroIs(raw[1..], n - 1);
      assert raw[..n] == [raw[0]] + raw[1..][..n - 1];
    }
  }

  method Text(raw: Bytes) returns (text: Bytes)
    ensures text == UntilZero(raw)
  {
    var at := FindNul(raw);
    if at >= 0 {
      UntilZeroIs(raw, at);
      return raw[..at];
    }
    UntilZeroIs(raw, |raw|);
    assert raw[..|raw|] == raw;
    return raw;
  }

  /** The packet whose fields lie where RFC 2131 puts them. */
  function PacketAt(data: Bytes, options: Options): Packet
    requires |data| >= HEADER && data[2] <= 16
  {
    Packet(data[0], data[1], data[2], data[3],
           FromBig32(data[4..8]), FromBig16(data[8..10]), FromBig16(data[10..12]),
           data[12..16], data[16..20], data[20..24], data[24..28], data[28..28 + data[2]],
           UntilZero(data[44..108]), UntilZero(data[108..236]), options, data[24..28])
  }

  /** What a datagram of any length and content reads as. */
  function Read(data: Bytes): Parsed<Packet> {
    if |data| < HEADER + 4 then TooShort
    else if data[2] > 16 then HardwareTooLong
    else if data[HEADER..HEADER + 4] != COOKIE then NoCookie
    else
      match OptionsOf(data[HEADER + 4..], map[])
      case Ok(options) => Ok(PacketAt(data, options))
      case Truncated(code) => Truncated(code)
      case _ => TooShort
  }

  method ParsePacket(data: Bytes) returns (r: Parsed<Packet>)
    ensures r == Read(data)
  {
    if |data| < HEADER + 4 {
      return TooShort;
    }
    if data[2] > 16 {
      return HardwareTooLong;
    }
    if data[HEADER..HEADER + 4] != COOKIE {
      return NoCookie;
    }
    var hardware := data[28..28 + data[2]];
    var sname := Text(data[44..108]);
    var file := Text(data[108..236]);
    var opts := ParseOptions(data[HEADER + 4..]);
    if opts.Truncated? {
      return Truncated(opts.code);
    }
    OnlyTruncated(data[HEADER + 4..], map[]);
    r := Ok(Packet(data[0], data[1], data[2], data[3],
                   FromBig32(data[4..8]), FromBig16(data[8..10]), FromBig16(data[10..12]),
                   data[12..16], data[16..20], data[20..24], data[24..28], hardware,
                   sname, file, opts.value, data[24..28]));
  }

  /** Options fail in one way only. */
  lemma {:induction false} OnlyTruncated(data: Bytes, opts: Options)
    ensures OptionsOf(data, opts).Ok? || OptionsOf(data, opts).Truncated?
    decreases |data|
  {
    if data == [] || data[0] == END {
    } else if data[0] == PAD {
      OnlyTruncated(data[1..], opts);
    } else if |data| >= 2 && 2 + data[1] <= |data| {
      OnlyTruncated(data[2 + data[1]..], opts[data[0] := data[2..2 + data[1]]]);
    }
  }

  // ---------- packets there and back ----------

  /** A packet as it comes back: names are not sent, addresses become four bytes, the
      hardware length is that of the hardware address, the relay is the gateway. */
  function Restored(p: Packet): Packet {
    p.(hlen := HardwareLength(p), chaddr := p.chaddr[..HardwareLength(p)],
       ciaddr := Field(p.ciaddr), yiaddr := Field(p.yiaddr), siaddr := Field(p.siaddr), giaddr := Field(p.giaddr),
       sname := [], file := [], relay := Field(p.giaddr))
  }

  lemma {:induction false} ReadNumbers(p: Packet, data: Bytes, options: Options)
    requires |data| >= HEADER && data[..HEADER] == Header(p)
    ensures data[2] == HardwareLength(p)
    ensures var q := PacketAt(data, options);
            (q.op, q.htype, q.hlen, q.hops, q.xid, q.secs, q.flags)
              == (p.op, p.htype, HardwareLength(p), p.hops, p.xid, p.secs, p.flags)
  {
    var b := Numbers(p, HardwareLength(p));
    assert data[..12] == b;
    assert data[4..8] == Big32(p.xid) && data[8..10] == Big16(p.secs) && data[10..12] == Big16(p.flags);
    BigRoundTrip(p.secs, p.xid);
    BigRoundTrip(p.flags, p.xid);
  }

  lemma Middle(a: Bytes, b: Bytes, c: Bytes)
    ensures (a + b + c)[|a|..|a| + |b|] == b
  {
  }

  /** A part of a prefix is a part of the whole. */
  lemma Within(data: Bytes, whole: Bytes, lo: nat, hi: nat)
    requires |whole| <= |data| && data[..|whole|] == whole && lo <= hi <= |whole|
    ensures data[lo..hi] == whole[lo..hi]
  {
    var a, b := data[lo..hi], whole[lo..hi];
    forall k | 0 <= k < |a| ensures a[k] == b[k] {
      assert whole[lo + k] == data[..|whole|][lo + k];
    }
  }

  lemma AddressParts(a: Bytes, b: Bytes, c: Bytes, d: Bytes)
    requires |a| == |b| == |c| == |d| == 4
    ensures var s := a + b + c + d; s[0..4] == a && s[4..8] == b && s[8..12] == c && s[12..16] == d
  {
  }

  lemma HeaderParts(p: Packet)
    ensures Header(p)[12..28] == Addresses(p) && Header(p)[28..44] == Hardware(p) && Header(p)[44..] == Zeros(192)
  {
    var n, a, h, z := Numbers(p, HardwareLength(p)), Addresses(p), Hardware(p), Zeros(192);
    Middle(n, a, h + z);
    assert n + a + h + z == n + a + (h + z);
    Middle(n + a, h, z);
  }

  lemma SliceAgain(data: Bytes, lo: nat, hi: nat, i: nat, j: nat)
    requires lo <= hi <= |data| && i <= j <= hi - lo
    ensures data[lo..hi][i..j] == data[lo + i..lo + j]
  {
    var a, b := data[lo..hi][i..j], data[lo + i..lo + j];
    forall k | 0 <= k < |a| ensures a[k] == b[k] {
    }
  }

  lemma {:induction false} ReadAddresses(p: Packet, data: Bytes)
    requires |data| >= HEADER && data[..HEADER] == Header(p)
    ensures data[12..16] == Field(p.ciaddr) && data[16..20] == Field(p.yiaddr)
    ensures data[20..24] == Field(p.siaddr) && data[24..28] == Field(p.giaddr)
  {
    HeaderParts(p);
    Within(data, Header(p), 12, 28);
    AddressParts(Field(p.ciaddr), Field(p.yiaddr), Field(p.siaddr), Field(p.giaddr));
    SliceAgain(data, 12, 28, 0, 4);
    SliceAgain(data, 12, 28, 4, 8);
    SliceAgain(data, 12, 28, 8, 12);
    SliceAgain(data, 12, 28, 12, 16);
  }

  lemma {:induction false} ReadHardware(p: Packet, data: Bytes)
    requires |data| >= HEADER && data[..HEADER] == Header(p)
    ensures data[28..28 + HardwareLength(p)] == p.chaddr[..HardwareLength(p)]
    ensures UntilZero(data[44..108]) == [] && UntilZero(data[108..236]) == []
  {
    HeaderParts(p);
    Within(data, Header(p), 28, 44);
    Within(data, Header(p), 44, 236);
    assert data[28..44][0..HardwareLength(p)] == p.chaddr[..HardwareLength(p)];
    SliceAgain(data, 28, 44, 0, HardwareLength(p));
    assert data[44] == data[44..236][0] == 0 && data[108] == data[44..236][64] == 0;
    UntilZeroIs(data[44..108], 0);
    UntilZeroIs(data[108..236], 0);
  }

  lemma {:induction false} ReadWire(p: Packet, buf: Bytes, order: seq<Byte>, tail: Bytes)
    requires Enumerates(order, p.options) && buf == Header(p) + COOKIE + (OptionBytes(order, p.options) + tail)
    ensures Read(buf) == Ok(Restored(p)) <==> Encodable(p.options)
    ensures Read(buf).Ok? ==> Read(buf).value == Restored(p).(options := Read(buf).value.options)
  {
    assert buf[..HEADER] == Header(p) && buf[HEADER..HEADER + 4] == COOKIE;
    assert buf[HEADER + 4..] == OptionBytes(order, p.options) + tail;
    OptionsRoundTrip(p.options, order, tail);
    OnlyTruncated(buf[HEADER + 4..], map[]);
    ReadNumbers(p, buf, map[]);
    ReadAddresses(p, buf);
    ReadHardware(p, buf);
  }

  /** Reading what was written restores the packet, as far as the format carries it,
      exactly when the format carries its options. */
  lemma {:induction false} PacketRoundTrip(p: Packet, buf: Bytes)
    requires Wire(buf, p)
    ensures Read(buf) == Ok(Restored(p)) <==> Encodable(p.options)
  {
    var options, pad: nat :|
      && Emitted(options, p.options)
      && |buf| >= MIN_LENGTH && (pad == 0 || |buf| == MIN_LENGTH)
      && buf == Header(p) + COOKIE + options + Zeros(pad);
    var order :| Enumerates(order, p.options) && options == OptionBytes(order, p.options);
    assert buf == Header(p) + COOKIE + (OptionBytes(order, p.options) + Zeros(pad));
    ReadWire(p, buf, order, Zeros(pad));
  }

  /** A packet in the form that reading gives. */
  predicate Plain(p: Packet) {
    && p.hlen == |p.chaddr| <= 16
    && |p.ciaddr| == |p.yiaddr| == |p.siaddr| == |p.giaddr| == 4 && p.relay == p.giaddr
    && p.sname == [] && p.file == [] && Encodable(p.options)
  }

  lemma RestoredIsPlain(p: Packet)
    ensures Restored(p) == p && Encodable(p.options) <==> Plain(p)
  {
    if Plain(p) {
      assert p.chaddr[..HardwareLength(p)] == p.chaddr;
    }
  }

  /** A packet comes back unchanged exactly when it has the form that reading gives. */
  lemma {:induction false} PlainRoundTrip(p: Packet, buf: Bytes)
    requires Wire(buf, p)
    ensures Read(buf) == Ok(p) <==> Plain(p)
  {
    var options, pad: nat :|
      && Emitted(options, p.options)
      && |buf| >= MIN_LENGTH && (pad == 0 || |buf| == MIN_LENGTH)
      && buf == Header(p) + COOKIE + options + Zeros(pad);
    var order :| Enumerates(order, p.options) && options == OptionBytes(order, p.options);
    assert buf == Header(p) + COOKIE + (OptionBytes(order, p.options) + Zeros(pad));
    ReadWire(p, buf, order, Zeros(pad));
    RestoredIsPlain(p);
  }

  // ---------- where things lie ----------

  /** An option on the wire: code, length, value. */
  ghost predicate OptionAt(buf: Bytes, i: nat, code: Byte, value: Bytes) {
    i + 2 + |value| <= |buf| && buf[i] == code && buf[i + 1] == |value| % 256 && buf[i + 2..i + 2 + |value|] == value
  }

  lemma OptionIn(a: Bytes, code: Byte, value: Bytes, c: Bytes)
    ensures OptionAt(a + Encoded(code, value) + c, |a|, code, value)
  {
    var buf := a + Encoded(code, value) + c;
    assert Encoded(code, value)[2..] == value;
    assert buf[|a| + 2..|a| + 2 + |value|] == value;
  }

  lemma {:induction false} EmittedAt(order: seq<Byte>, opts: Options, k: nat) returns (i: nat)
    requires (forall code :: code in order ==> code in opts) && k < |order|
    ensures OptionAt(Emit(order, opts), i, order[k], opts[order[k]])
  {
    var n := |order| - 1;
    var front, last := Emit(order[..n], opts), Encoded(order[n], opts[order[n]]);
    assert order == order[..n] + [order[n]];
    EmitOneMore(order[..n], order[n], opts);
    if k == n {
      i := |front|;
      OptionIn(front, order[n], opts[order[n]], []);
      assert front + last + [] == front + last;
    } else {
      i := EmittedAt(order[..n], opts, k);
      OptionStays(front, last, i, order[k], opts[order[k]]);
    }
  }

  lemma OptionStays(buf: Bytes, more: Bytes, i: nat, code: Byte, value: Bytes)
    requires OptionAt(buf, i, code, value)
    ensures OptionAt(buf + more, i, code, value)
  {
    assert (buf + more)[i + 2..i + 2 + |value|] == buf[i + 2..i + 2 + |value|];
  }

  lemma NumberBytes(p: Packet, buf: Bytes)
    requires |buf| >= 12 && buf[..12] == Numbers(p, HardwareLength(p))
    ensures buf[0] == p.op && buf[1] == p.htype && buf[2] == (if |p.chaddr| > 16 then 16 else |p.chaddr|) && buf[3] == p.hops
    ensures buf[4] as int * 0x100_0000 + buf[5] as int * 0x1_0000 + buf[6] as int * 0x100 + buf[7] == p.xid
    ensures buf[8] as int * 0x100 + buf[9] == p.secs && buf[10] as int * 0x100 + buf[11] == p.flags
  {
    var b := Numbers(p, HardwareLength(p));
    assert forall i :: 0 <= i < 12 ==> buf[i] == b[i];
    BigRoundTrip(p.secs, p.xid);
    BigRoundTrip(p.flags, p.xid);
  }

  lemma WireStart(p: Packet, buf: Bytes)
    requires Wire(buf, p)
    ensures |buf| >= 300 && buf[..236] == Header(p) && buf[236..240] == [99, 130, 83, 99]
  {
    var options, pad: nat :| Emitted(options, p.options) && |buf| >= MIN_LENGTH && (pad == 0 || |buf| == MIN_LENGTH)
      && buf == Header(p) + COOKIE + options + Zeros(pad);
  }

  /** A packet on the wire, field by field as in section 2 of RFC 2131: numbers with the
      most significant byte first, no names, the magic cookie, and at least 300 bytes. */
  lemma WireLayout(p: Packet, buf: Bytes)
    requires Wire(buf, p)
    ensures |buf| >= 300 && buf[0] == p.op && buf[1] == p.htype && buf[2] == (if |p.chaddr| > 16 then 16 else |p.chaddr|) && buf[3] == p.hops
    ensures buf[4] as int * 0x100_0000 + buf[5] as int * 0x1_0000 + buf[6] as int * 0x100 + buf[7] == p.xid
    ensures buf[8] as int * 0x100 + buf[9] == p.secs && buf[10] as int * 0x100 + buf[11] == p.flags
    ensures buf[12..16] == Field(p.ciaddr) && buf[16..20] == Field(p.yiaddr) && buf[20..24] == Field(p.siaddr) && buf[24..28] == Field(p.giaddr)
    ensures buf[28..44] == Hardware(p) && buf[44..236] == Zeros(192) && buf[236..240] == [99, 130, 83, 99]
  {
    WireStart(p, buf);
    ReadAddresses(p, buf);
    HeaderParts(p);
    Within(buf, Header(p), 28, 44);
    Within(buf, Header(p), 44, 236);
    assert Header(p)[44..236] == Header(p)[44..];
    assert Header(p)[..12] == Numbers(p, HardwareLength(p));
    Within(buf, Header(p), 0, 12);
    NumberBytes(p, buf);
  }

  /** Every option lies somewhere behind the cookie. */
  lemma WireOptions(p: Packet, buf: Bytes, code: Byte) returns (i: nat)
    requires Wire(buf, p) && code in p.options
    ensures i >= 240 && OptionAt(buf, i, code, p.options[code])
  {
    var options, pad: nat :| Emitted(options, p.options) && |buf| >= MIN_LENGTH && (pad == 0 || |buf| == MIN_LENGTH)
      && buf == Header(p) + COOKIE + options + Zeros(pad);
    var order :| Enumerates(order, p.options) && options == OptionBytes(order, p.options);
    var k :| 0 <= k < |order| && order[k] == code;
    var at := EmittedAt(order, p.options, k);
    OptionStays(Emit(order, p.options), [END], at, code, p.options[code]);
    var front := Header(p) + COOKIE;
    OptionShifts(front, options, Zeros(pad), at, code, p.options[code]);
    assert front + options + Zeros(pad) == buf;
    i := |front| + at;
  }

  lemma OptionShifts(front: Bytes, buf: Bytes, more: Bytes, i: nat, code: Byte, value: Bytes)
    requires OptionAt(buf, i, code, value)
    ensures OptionAt(front + buf + more, |front| + i, code, value)
  {
    var whole := front + buf + more;
    assert whole[|front| + i + 2..|front| + i + 2 + |value|] == buf[i + 2..i + 2 + |value|];
  }

  /** An address field holds an IPv4 address as it is, one mapped into IPv6 by its last four
      bytes, and zeros for anything else; the hardware field what fits, then zeros. */
  lemma FieldMeans(ip: Bytes, p: Packet)
    ensures |ip| == 4 ==> Field(ip) == ip
    ensures |ip| == 16 && ip[..12] == [0, 0, 0, 0, 0, 0, 0, 0, 0, 0, 255, 255] ==> Field(ip) == ip[12..]
    ensures |ip| != 4 && !(|ip| == 16 && ip[..12] == [0, 0, 0, 0, 0, 0, 0, 0, 0, 0, 255, 255]) ==> Field(ip) == [0, 0, 0, 0]
    ensures forall i :: 0 <= i < 16 ==> Hardware(p)[i] == if i < |p.chaddr| then p.chaddr[i] else 0
  {
    assert Zeros(10) + [255, 255] == [0, 0, 0, 0, 0, 0, 0, 0, 0, 0, 255, 255];
    assert Zeros(4) == [0, 0, 0, 0];
  }
}
