/** Zones as entered and stored: normalisation of names, validation of records and the
    records they become. */
module ZoneRecords {
  import opened Dns
  import opened Filtering

  const MAX_RECORDS := 1000
  const MAX_RECORD_TTL := 86400
  const MAX_TEXT := 2048
  const CHUNK := 255

  /** A name as written: its labels and whether it ends in a dot. */
  datatype Text = Text(labels: Name, dot: bool)

  datatype Ip = Ipv4(text: string) | Ipv6(text: string)

  /** An address as written: in standard form, in another form, or none at all. */
  datatype Address = Standard(ip: Ip) | Variant(text: string, ip: Ip) | Unreadable(text: string)

  datatype Data =
    | A(address: Address) | AAAA(address: Address)
    | CNAME(host: Text) | MX(host: Text) | NS(host: Text) | PTR(host: Text)
    | TXT(text: string)
    | Unsupported

  datatype Record = Record(id: int, name: Text, ttl: U32, data: Data, priority: nat)

  datatype Zone = Zone(id: int, name: Text, primary: Text, contact: Text, revision: U32, records: seq<Record>, secondary: bool)

  // ---------- names ----------

  /** Lower case and absolute, or nothing if the labels are no host name. */
  function Domain(t: Text): Option<Text> {
    if Plain(Lower(t.labels)) then Some(Text(Lower(t.labels), true)) else None
  }

  predicate Normal(t: Text) { t.dot && Plain(t.labels) }

  lemma DomainNormal(t: Text)
    ensures Domain(t).Some? ==> Normal(Domain(t).value)
    ensures Normal(t) ==> Domain(t) == Some(t)
  {
    if Normal(t) {
      PlainIsLower(t.labels);
    }
  }

  predicate Blank(t: Text) { t == Text([], false) }

  // ---------- text chunks ----------

  /** Bytes are characters below 256; a rune starts at a byte that continues none. */
  predicate RuneStart(c: char) { !(0x80 <= c as int < 0xC0) }

  function RuneLength(c: char): nat {
    if c as int < 0x80 then 1
    else if 0xC0 <= c as int < 0xE0 then 2
    else if 0xE0 <= c as int < 0xF0 then 3
    else if 0xF0 <= c as int < 0xF8 then 4
    else 0
  }

  /** The structure of UTF-8: each leading byte is followed by its continuation bytes. */
  predicate Utf8(s: string) {
    s == []
    || (var n := RuneLength(s[0]);
        && 0 < n <= |s|
        && (forall i :: 1 <= i < n ==> !RuneStart(s[i]))
        && Utf8(s[n..]))
  }

  function Join(parts: seq<string>): string {
    if parts == [] then [] else Join(parts[..|parts| - 1]) + parts[|parts| - 1]
  }

  /** The first character and the rest. */
  lemma {:induction false} FirstRune(s: string)
    requires Utf8(s) && s != []
    ensures var k := RuneLength(s[0]); 0 < k <= |s| && Utf8(s[k..]) && forall i :: 1 <= i < k ==> !RuneStart(s[i])
  {
  }

  /** A character before a text makes a text. */
  lemma {:induction false} OneMoreRune(s: string, k: nat)
    requires s != [] && k == RuneLength(s[0]) && 0 < k <= |s| && (forall i :: 1 <= i < k ==> !RuneStart(s[i])) && Utf8(s[k..])
    ensures Utf8(s)
  {
  }

  lemma SliceParts(s: string, k: nat, n: nat)
    requires k <= n <= |s|
    ensures s[k..][..n - k] == s[..n][k..] && s[k..][n - k..] == s[n..]
  {
  }

  /** Cutting before a rune leaves two well-formed texts. */
  lemma {:induction false} CutAtRune(s: string, n: nat)
    requires Utf8(s) && n < |s| && RuneStart(s[n])
    ensures Utf8(s[..n]) && Utf8(s[n..])
    decreases |s|
  {
    if n > 0 {
      FirstRune(s);
      var k := RuneLength(s[0]);
      assert k <= n;
      SliceParts(s, k, n);
      if k < n {
        CutAtRune(s[k..], n - k);
      } else {
        assert s[..n][k..] == [];
      }
      OneMoreRune(s[..n], k);
    }
  }

  /** A rune starts within any four consecutive bytes. */
  lemma {:induction false} RuneNearby(s: string, n: nat)
    requires Utf8(s) && 3 <= n < |s|
    ensures RuneStart(s[n]) || RuneStart(s[n - 1]) || RuneStart(s[n - 2]) || RuneStart(s[n - 3])
    decreases |s|
  {
    var k := RuneLength(s[0]);
    if n >= k + 3 {
      RuneNearby(s[k..], n - k);
    } else if n >= k {
      assert RuneStart(s[k..][0]) by {
        assert RuneLength(s[k..][0]) > 0;
      }
    } else {
      assert n == 3 && RuneStart(s[0]);
    }
  }

  /** The last place up to `n` where a character starts. */
  function CutFrom(value: string, n: nat): (k: nat)
    requires n < |value|
    ensures k <= n && forall i :: k < i <= n ==> !RuneStart(value[i])
  {
    if n == 0 || RuneStart(value[n]) then n else CutFrom(value, n - 1)
  }

  lemma CutIsNear(value: string)
    requires Utf8(value) && |value| > CHUNK
    ensures var n := CutFrom(value, CHUNK); CHUNK - 3 <= n <= CHUNK && RuneStart(value[n])
  {
    RuneNearby(value, CHUNK);
    assert RuneStart(value[CutFrom(value, CHUNK)]) by {
      StartsOrZero(value, CHUNK);
    }
  }

  lemma {:induction false} StartsOrZero(value: string, n: nat)
    requires n < |value|
    ensures RuneStart(value[CutFrom(value, n)]) || CutFrom(value, n) == 0
  {
    if n > 0 && !RuneStart(value[n]) {
      StartsOrZero(value, n - 1);
    }
  }

  method CutPoint(value: string) returns (n: nat)
    requires Utf8(value) && |value| > CHUNK
    ensures n == CutFrom(value, CHUNK) && CHUNK - 3 <= n <= CHUNK && RuneStart(value[n])
  {
    CutIsNear(value);
    n := CHUNK;
    while !RuneStart(value[n])
      invariant CHUNK - 3 <= n <= CHUNK && CutFrom(value, n) == CutFrom(value, CHUNK)
      decreases n
    {
      n := n - 1;
    }
  }

  /** The pieces of a text: of at most 255 bytes, none cutting a character. */
  function Pieces(text: string): (parts: seq<string>)
    requires Utf8(text)
    ensures parts != []
    decreases |text|
  {
    if |text| <= CHUNK then [text]
    else
      var n := CutFrom(text, CHUNK);
      CutIsNear(text);
      CutAtRune(text, n);
      [text[..n]] + Pieces(text[n..])
  }

  predicate GoodPieces(parts: seq<string>) {
    forall i :: 0 <= i < |parts| ==> CHUNK - 3 <= |parts[i]| <= CHUNK && Utf8(parts[i])
  }

  lemma {:induction false} JoinFront(first: string, parts: seq<string>)
    ensures Join([first] + parts) == first + Join(parts)
  {
    var all := [first] + parts;
    if parts == [] {
      assert all[..0] == [] && Join(all) == Join(all[..0]) + all[0];
    } else {
      var n := |parts| - 1;
      JoinFront(first, parts[..n]);
      assert all[..|all| - 1] == [first] + parts[..n];
    }
  }

  /** Together the pieces are the text; each is well formed, and all but the last long. */
  predicate MakeUp(parts: seq<string>, text: string) {
    && parts != [] && Join(parts) == text && GoodPieces(parts[..|parts| - 1])
    && |parts[|parts| - 1]| <= CHUNK && Utf8(parts[|parts| - 1])
  }

  lemma {:induction false} PiecesMakeText(text: string)
    requires Utf8(text)
    ensures MakeUp(Pieces(text), text)
    decreases |text|
  {
    if |text| <= CHUNK {
      OnePiece(text);
    } else {
      var n := CutFrom(text, CHUNK);
      CutIsNear(text);
      CutAtRune(text, n);
      PiecesMakeText(text[n..]);
      PiecesStep(text[..n], Pieces(text[n..]), text[n..]);
      assert text[..n] + text[n..] == text;
      MovePiece([], text, n);
      assert [] + Pieces(text) == Pieces(text) && [] + [text[..n]] == [text[..n]];
    }
  }

  lemma {:induction false} OnePiece(text: string)
    requires Utf8(text) && |text| <= CHUNK
    ensures MakeUp([text], text)
  {
    JoinFront(text, []);
    assert [text] + [] == [text] && text + "" == text;
  }

  lemma {:induction false} PiecesStep(first: string, rest: seq<string>, text: string)
    requires CHUNK - 3 <= |first| <= CHUNK && Utf8(first) && MakeUp(rest, text)
    ensures MakeUp([first] + rest, first + text)
  {
    JoinFront(first, rest);
    var parts := [first] + rest;
    assert parts[..|parts| - 1] == [first] + rest[..|rest| - 1];
  }

  /** Splits a text into pieces of at most 255 bytes without cutting a character. */
  method Chunks(text: string) returns (parts: seq<string>)
    requires Utf8(text)
    ensures parts == Pieces(text) && MakeUp(parts, text)
  {
    var value := text;
    parts := [];
    while |value| > CHUNK
      invariant Utf8(value) && parts + Pieces(value) == Pieces(text)
      decreases |value|
    {
      var n := CutPoint(value);
      CutAtRune(value, n);
      MovePiece(parts, value, n);
      parts := parts + [value[..n]];
      value := value[n..];
    }
    parts := parts + [value];
    PiecesMakeText(text);
  }

  lemma {:induction false} MovePiece(parts: seq<string>, value: string, n: nat)
    requires Utf8(value) && |value| > CHUNK && n == CutFrom(value, CHUNK) && Utf8(value[n..])
    ensures parts + Pieces(value) == (parts + [value[..n]]) + Pieces(value[n..])
  {
    assert Pieces(value) == [value[..n]] + Pieces(value[n..]);
  }

  // ---------- records ----------

  /** The resource record a stored record stands for. */
  function RecordRR(r: Record): Option<RR> {
    var owner := r.name.labels;
    match r.data
    case A(address) =>
      if address.Unreadable? || !address.ip.Ipv4? then None else Some(RR(owner, r.ttl, Raw(TYPE_A, Content([address.ip.text], 0))))
    case AAAA(address) =>
      if address.Unreadable? || !address.ip.Ipv6? then None else Some(RR(owner, r.ttl, Raw(TYPE_AAAA, Content([address.ip.text], 0))))
    case CNAME(host) => Some(RR(owner, r.ttl, Alias(host.labels)))
    case MX(host) => Some(RR(owner, r.ttl, Raw(TYPE_MX, Content(host.labels, r.priority))))
    case NS(host) => Some(RR(owner, r.ttl, Raw(TYPE_NS, Content(host.labels, 0))))
    case PTR(host) => Some(RR(owner, r.ttl, Raw(TYPE_PTR, Content(host.labels, 0))))
    case TXT(text) => if |text| <= MAX_TEXT && Utf8(text) then Some(RR(owner, r.ttl, Raw(TYPE_TXT, Content(Pieces(text), 0)))) else None
    case _ => None
  }

  /** "@" and nothing mean the zone itself; a name without a final dot is relative. */
  function AbsoluteName(zone: Name, t: Text): Text {
    if Blank(t) || t == Text(["@"], false) then Text(zone, true)
    else if !t.dot then Text(t.labels + zone, true)
    else t
  }

  function NormalizeData(d: Data): Option<Data> {
    match d
    case CNAME(host) => if Domain(host).Some? then Some(CNAME(Domain(host).value)) else None
    case MX(host) => if Domain(host).Some? then Some(MX(Domain(host).value)) else None
    case NS(host) => if Domain(host).Some? then Some(NS(Domain(host).value)) else None
    case PTR(host) => if Domain(host).Some? then Some(PTR(Domain(host).value)) else None
    case A(address) => if address.Unreadable? then None else Some(A(Standard(address.ip)))
    case AAAA(address) => if address.Unreadable? then None else Some(AAAA(Standard(address.ip)))
    case _ => Some(d)
  }

  /** What a record must satisfy once its names are in normal form. */
  predicate Permitted(zone: Name, r: Record) {
    && AtOrBelow(r.name.labels, zone) && r.ttl <= MAX_RECORD_TTL
    && (r.data.MX? || r.priority == 0)
    && !(r.data.CNAME? && r.name.labels == zone)
    && !(r.data.NS? && r.name.labels != zone)
    && RecordRR(r).Some?
  }

  function NormalizeRecord(zone: Name, r: Record): Option<Record> {
    var name := Domain(AbsoluteName(zone, r.name));
    var data := NormalizeData(r.data);
    if name.None? || data.None? || !Permitted(zone, r.(name := name.value, data := data.value)) then None
    else Some(r.(name := name.value, data := data.value))
  }

  predicate NormalizableRecords(zone: Name, rs: seq<Record>) {
    forall i :: 0 <= i < |rs| ==> NormalizeRecord(zone, rs[i]).Some?
  }

  function NormalizeRecords(zone: Name, rs: seq<Record>): seq<Record>
    requires NormalizableRecords(zone, rs)
  {
    seq(|rs|, i requires 0 <= i < |rs| => NormalizeRecord(zone, rs[i]).value)
  }

  function NormalizeZone(z: Zone): Option<Zone> {
    var name := Domain(z.name);
    if name.None? then None
    else
      var zone := name.value.labels;
      var primary := Domain(if Blank(z.primary) then Text(["ns"] + zone, true) else z.primary);
      var contact := Domain(if Blank(z.contact) then Text(["hostmaster"] + zone, true) else z.contact);
      if primary.None? || contact.None? || |z.records| > MAX_RECORDS || !NormalizableRecords(zone, z.records) then None
      else Some(z.(name := name.value, primary := primary.value, contact := contact.value, records := NormalizeRecords(zone, z.records)))
  }

  /** Rewrites the records one by one and gives up at the first bad one. */
  method Normalize(z: Zone) returns (out: Option<Zone>)
    ensures out == NormalizeZone(z)
  {
    var name := Domain(z.name);
    if name.None? {
      return None;
    }
    var zone := name.value.labels;
    var primary := Domain(if Blank(z.primary) then Text(["ns"] + zone, true) else z.primary);
    var contact := Domain(if Blank(z.contact) then Text(["hostmaster"] + zone, true) else z.contact);
    if primary.None? || contact.None? || |z.records| > MAX_RECORDS {
      return None;
    }
    var records := NormalizeEach(zone, z.records);
    if records.None? {
      return None;
    }
    return Some(z.(name := name.value, primary := primary.value, contact := contact.value, records := records.value));
  }

  method NormalizeEach(zone: Name, rs: seq<Record>) returns (out: Option<seq<Record>>)
    ensures out == if NormalizableRecords(zone, rs) then Some(NormalizeRecords(zone, rs)) else None
  {
    var records: seq<Record> := [];
    for i := 0 to |rs|
      invariant |records| == i && forall j :: 0 <= j < i ==> NormalizeRecord(zone, rs[j]) == Some(records[j])
    {
      var r := NormalizeRecord(zone, rs[i]);
      if r.None? {
        return None;
      }
      records := records + [r.value];
    }
    assert records == NormalizeRecords(zone, rs);
    return Some(records);
  }

  // ---------- normal form ----------

  predicate NormalData(d: Data) {
    match d
    case CNAME(host) => Normal(host)
    case MX(host) => Normal(host)
    case NS(host) => Normal(host)
    case PTR(host) => Normal(host)
    case A(address) => address.Standard?
    case AAAA(address) => address.Standard?
    case _ => true
  }

  lemma NormalizeDataNormal(d: Data)
    ensures NormalizeData(d).Some? ==> NormalData(NormalizeData(d).value)
    ensures NormalizeData(d).Some? ==> NormalizeData(NormalizeData(d).value) == NormalizeData(d)
  {
    match d {
      case CNAME(host) => DomainTwice(host);
      case MX(host) => DomainTwice(host);
      case NS(host) => DomainTwice(host);
      case PTR(host) => DomainTwice(host);
      case _ =>
    }
  }

  lemma DomainTwice(t: Text)
    ensures Domain(t).Some? ==> Normal(Domain(t).value) && Domain(Domain(t).value) == Domain(t)
  {
    DomainNormal(t);
    if Domain(t).Some? {
      DomainNormal(Domain(t).value);
    }
  }

  lemma NormalizeRecordTwice(zone: Name, r: Record)
    requires NormalizeRecord(zone, r).Some?
    ensures var out := NormalizeRecord(zone, r).value;
            NormalizeRecord(zone, out) == Some(out) && Normal(out.name) && NormalData(out.data)
  {
    DomainTwice(AbsoluteName(zone, r.name));
    NormalizeDataNormal(r.data);
    var out := NormalizeRecord(zone, r).value;
    assert AbsoluteName(zone, out.name) == out.name;
  }

  /** Normalising a stored zone again changes nothing, so what is served after a restart
      is what was served before. */
  lemma NormalizeZoneIdempotent(z: Zone)
    requires NormalizeZone(z).Some?
    ensures NormalizeZone(NormalizeZone(z).value) == NormalizeZone(z)
  {
    var out := NormalizeZone(z).value;
    var zone := out.name.labels;
    DomainTwice(z.name);
    DomainTwice(if Blank(z.primary) then Text(["ns"] + zone, true) else z.primary);
    DomainTwice(if Blank(z.contact) then Text(["hostmaster"] + zone, true) else z.contact);
    forall i | 0 <= i < |z.records|
      ensures NormalizeRecord(zone, out.records[i]) == Some(out.records[i])
    {
      NormalizeRecordTwice(zone, z.records[i]);
    }
    assert NormalizeRecords(zone, out.records) == out.records;
  }

  /** A resource record fit to be served from a zone. */
  predicate Servable(rr: RR, zone: Name) {
    && AtOrBelow(rr.owner, zone) && Lower(rr.owner) == rr.owner
    && (rr.Type() == TYPE_CNAME <==> rr.data.Alias?)
    && (rr.data.Alias? ==> rr.owner != zone && Lower(rr.data.target) == rr.data.target)
    && rr.Type() != TYPE_RRSIG && rr.Type() != TYPE_SOA
  }

  lemma PermittedIsServable(zone: Name, r: Record)
    requires Normal(r.name) && NormalData(r.data) && Permitted(zone, r)
    ensures Servable(RecordRR(r).value, zone)
  {
    PlainIsLower(r.name.labels);
    if r.data.CNAME? {
      PlainIsLower(r.data.host.labels);
    }
  }

  /** Every record of a normalised zone is servable. */
  lemma NormalRecordRR(z: Zone, i: nat)
    requires NormalizeZone(z) == Some(z) && i < |z.records|
    ensures RecordRR(z.records[i]).Some? && Servable(RecordRR(z.records[i]).value, z.name.labels)
  {
    var r := z.records[i];
    assert NormalizeRecord(z.name.labels, r) == Some(r) by {
      assert NormalizeRecords(z.name.labels, z.records)[i] == r;
    }
    NormalizeRecordTwice(z.name.labels, r);
    PermittedIsServable(z.name.labels, r);
  }

  // ---------- what is stored and served ----------

  /** The record served for a stored one: owner, TTL and type of the record, with its
      address, host, preference or text. */
  lemma ServedAs(r: Record)
    requires RecordRR(r).Some?
    ensures var rr := RecordRR(r).value;
            && rr.owner == r.name.labels && rr.ttl == r.ttl
            && (r.data.A? ==> r.data.address.ip.Ipv4? && rr.data == Raw(1, Content([r.data.address.ip.text], 0)))
            && (r.data.AAAA? ==> r.data.address.ip.Ipv6? && rr.data == Raw(28, Content([r.data.address.ip.text], 0)))
            && (r.data.CNAME? ==> rr.data == Alias(r.data.host.labels))
            && (r.data.MX? ==> rr.data == Raw(15, Content(r.data.host.labels, r.priority)))
            && (r.data.NS? ==> rr.data == Raw(2, Content(r.data.host.labels, 0)))
            && (r.data.PTR? ==> rr.data == Raw(12, Content(r.data.host.labels, 0)))
            && (r.data.TXT? ==> rr.data.Raw? && rr.data.kind == 16 && MakeUp(rr.data.content.texts, r.data.text))
            && !r.data.Unsupported?
  {
    if r.data.TXT? {
      PiecesMakeText(r.data.text);
    }
  }

  /** The absolute form of a name in a zone: "@" and nothing are the zone, a name without a
      final dot is below it. */
  ghost predicate Denotes(zone: Name, t: Text, n: Name) {
    if t == Text([], false) || t == Text(["@"], false) then n == Lower(zone)
    else if t.dot then n == Lower(t.labels)
    else |n| == |t.labels| + |zone| && n[..|t.labels|] == Lower(t.labels) && n[|t.labels|..] == Lower(zone)
  }

  lemma LowerOfParts(a: Name, b: Name)
    ensures Lower(a + b)[..|a|] == Lower(a) && Lower(a + b)[|a|..] == Lower(b) && |Lower(a + b)| == |a| + |b|
  {
  }

  lemma AbsoluteMeans(zone: Name, t: Text)
    requires Domain(AbsoluteName(zone, t)).Some?
    ensures Denotes(zone, t, Domain(AbsoluteName(zone, t)).value.labels)
  {
    LowerOfParts(t.labels, zone);
  }

  /** What stands for the data of a record once it is stored: hosts in lower case and
      absolute, addresses in standard form, texts as they are. */
  predicate SameData(raw: Data, out: Data) {
    match raw
    case A(address) => !address.Unreadable? && out == A(Standard(address.ip))
    case AAAA(address) => !address.Unreadable? && out == AAAA(Standard(address.ip))
    case CNAME(host) => out == CNAME(Text(Lower(host.labels), true))
    case MX(host) => out == MX(Text(Lower(host.labels), true))
    case NS(host) => out == NS(Text(Lower(host.labels), true))
    case PTR(host) => out == PTR(Text(Lower(host.labels), true))
    case TXT(text) => out == raw
    case Unsupported => out == raw
  }

  /** Data that can be served: addresses of the right family, host names, texts of at most
      2048 bytes; an alias not at the apex, and name servers only there. */
  predicate GoodData(zone: Name, n: Name, d: Data) {
    match d
    case A(address) => !address.Unreadable? && address.ip.Ipv4?
    case AAAA(address) => !address.Unreadable? && address.ip.Ipv6?
    case CNAME(host) => Plain(Lower(host.labels)) && n != zone
    case MX(host) => Plain(Lower(host.labels))
    case NS(host) => Plain(Lower(host.labels)) && n == zone
    case PTR(host) => Plain(Lower(host.labels))
    case TXT(text) => |text| <= 2048 && Utf8(text)
    case Unsupported => false
  }

  /** What a zone accepts: a name in the zone, a TTL of at most a day, a preference for mail
      exchangers only, and such data. */
  ghost predicate Accepts(zone: Name, r: Record) {
    && r.ttl <= 86400 && (r.priority != 0 ==> r.data.MX?)
    && exists n :: Denotes(zone, r.name, n) && Plain(n) && AtOrBelow(n, zone) && GoodData(zone, n, r.data)
  }

  lemma DenotesOne(zone: Name, t: Text, n: Name)
    requires Denotes(zone, t, n)
    ensures Lower(AbsoluteName(zone, t).labels) == n
  {
    LowerOfParts(t.labels, zone);
    if !Blank(t) && t != Text(["@"], false) && !t.dot {
      assert n == n[..|t.labels|] + n[|t.labels|..];
      var all := Lower(t.labels + zone);
      assert all == all[..|t.labels|] + all[|t.labels|..];
    }
  }

  lemma GoodDataMeans(zone: Name, n: Name, r: Record)
    ensures NormalizeData(r.data).Some? && Permitted(zone, r.(name := Text(n, true), data := NormalizeData(r.data).value)) <==>
              AtOrBelow(n, zone) && r.ttl <= 86400 && (r.priority != 0 ==> r.data.MX?) && GoodData(zone, n, r.data)
    ensures NormalizeData(r.data).Some? ==> SameData(r.data, NormalizeData(r.data).value)
  {
  }

  lemma AcceptsMeans(zone: Name, r: Record)
    ensures Accepts(zone, r) <==>
              var n := Lower(AbsoluteName(zone, r.name).labels);
              Plain(n) && AtOrBelow(n, zone) && r.ttl <= 86400 && (r.priority != 0 ==> r.data.MX?) && GoodData(zone, n, r.data)
  {
    var n := Lower(AbsoluteName(zone, r.name).labels);
    if x :| Denotes(zone, r.name, x) && Plain(x) && AtOrBelow(x, zone) && GoodData(zone, x, r.data) {
      DenotesOne(zone, r.name, x);
    }
    if Plain(n) {
      AbsoluteMeans(zone, r.name);
      assert Denotes(zone, r.name, n);
    }
  }

  /** A record is stored exactly if the zone accepts it, and as what it says. */
  lemma NormalizeRecordMeans(zone: Name, r: Record)
    ensures NormalizeRecord(zone, r).Some? <==> Accepts(zone, r)
    ensures NormalizeRecord(zone, r).Some? ==>
              var out := NormalizeRecord(zone, r).value;
              && out.id == r.id && out.ttl == r.ttl && out.priority == r.priority && out.name.dot
              && Denotes(zone, r.name, out.name.labels) && SameData(r.data, out.data)
  {
    var n := Lower(AbsoluteName(zone, r.name).labels);
    AcceptsMeans(zone, r);
    GoodDataMeans(zone, n, r);
    if Plain(n) {
      AbsoluteMeans(zone, r.name);
    }
  }

  /** Which zones are accepted. */
  lemma AcceptedZones(z: Zone)
    ensures NormalizeZone(z).Some? <==>
            && Plain(Lower(z.name.labels)) && |z.records| <= 1000
            && (if z.primary == Text([], false) then Plain(Lower(["ns"] + Lower(z.name.labels))) else Plain(Lower(z.primary.labels)))
            && (if z.contact == Text([], false) then Plain(Lower(["hostmaster"] + Lower(z.name.labels))) else Plain(Lower(z.contact.labels)))
            && forall i :: 0 <= i < |z.records| ==> Accepts(Lower(z.name.labels), z.records[i])
  {
    var zone := Lower(z.name.labels);
    forall i | 0 <= i < |z.records| ensures NormalizeRecord(zone, z.records[i]).Some? <==> Accepts(zone, z.records[i]) {
      NormalizeRecordMeans(zone, z.records[i]);
    }
  }

  /** What a zone becomes: names in lower case, default server and contact where none is
      given, and its records one by one. */
  lemma NormalizeZoneMeans(z: Zone)
    requires NormalizeZone(z).Some?
    ensures var out := NormalizeZone(z).value;
            && out.id == z.id && out.revision == z.revision && out.secondary == z.secondary
            && out.name == Text(Lower(z.name.labels), true)
            && out.primary == (if z.primary == Text([], false) then Text(Lower(["ns"] + Lower(z.name.labels)), true) else Text(Lower(z.primary.labels), true))
            && out.contact == (if z.contact == Text([], false) then Text(Lower(["hostmaster"] + Lower(z.name.labels)), true) else Text(Lower(z.contact.labels), true))
            && |out.records| == |z.records| <= 1000
            && forall i :: 0 <= i < |z.records| ==> NormalizeRecord(out.name.labels, z.records[i]) == Some(out.records[i])
  {
  }
}
