/** Choosing the release to update to from a listing in any order. */
module Release {
  import opened Dns
  import opened Versions

  datatype Asset = Asset(name: string, url: string)

  datatype Candidate = Candidate(tag: string, draft: bool, assets: seq<Asset>)

  datatype Settings = Settings(repository: string, channel: string, arch: string, publicApi: bool)

  datatype Chosen = Chosen(version: string, artifact: string, checksum: string)

  datatype Outcome = Selected(release: Chosen) | NoneEligible | Untrusted

  // ---------- channels ----------

  predicate StartsAt(s: string, sub: string, i: nat) { i + |sub| <= |s| && s[i..i + |sub|] == sub }

  predicate HasPart(s: string, sub: string) { exists i: nat | i <= |s| :: StartsAt(s, sub, i) }

  function Channel(version: string): string {
    var lower := LowerLabel(version);
    if !HasPart(lower, "-") || HasPart(lower, "-rc.") then "stable"
    else if HasPart(lower, "-alpha.") then "alpha"
    else if HasPart(lower, "-beta.") then "beta"
    else "alpha"
  }

  function Trimmed(tag: string): string { if tag != [] && tag[0] == 'v' then tag[1..] else tag }

  predicate HasPrefix(s: string, prefix: string) { prefix <= s }

  // ---------- assets ----------

  function ArtifactName(s: Settings, version: string): string {
    "velora-dns-" + version + "-linux-" + s.arch + ".tar.gz"
  }

  const CHECKSUMS := "CHECKSUMS.sha256"

  /** The last asset of a name, as its address; empty when there is none. */
  function UrlOf(assets: seq<Asset>, name: string): string {
    if assets == [] then ""
    else if assets[|assets| - 1].name == name then assets[|assets| - 1].url
    else UrlOf(assets[..|assets| - 1], name)
  }

  method FindAssets(assets: seq<Asset>, name: string) returns (artifact: string, checksum: string)
    requires name != CHECKSUMS
    ensures artifact == UrlOf(assets, name) && checksum == UrlOf(assets, CHECKSUMS)
  {
    artifact, checksum := "", "";
    for i := 0 to |assets|
      invariant artifact == UrlOf(assets[..i], name) && checksum == UrlOf(assets[..i], CHECKSUMS)
    {
      assert assets[..i + 1][..i] == assets[..i];
      if assets[i].name == name {
        artifact := assets[i].url;
      } else if assets[i].name == CHECKSUMS {
        checksum := assets[i].url;
      }
    }
    assert assets[..|assets|] == assets;
  }

  // ---------- eligible releases ----------

  /** Published on the channel and newer than what is installed, with both files. */
  predicate Offered(s: Settings, installed: string, c: Candidate) {
    var v := Trimmed(c.tag);
    && !c.draft && Valid(v) && Channel(v) == s.channel && Compared(v, Trimmed(installed)) > 0
    && UrlOf(c.assets, ArtifactName(s, v)) != "" && UrlOf(c.assets, CHECKSUMS) != ""
  }

  predicate Trusted(s: Settings, c: Candidate) {
    var prefix := "https://github.com/" + s.repository + "/releases/download/";
    !s.publicApi || (HasPrefix(UrlOf(c.assets, ArtifactName(s, Trimmed(c.tag))), prefix) && HasPrefix(UrlOf(c.assets, CHECKSUMS), prefix))
  }

  function Release(s: Settings, c: Candidate): Chosen {
    var v := Trimmed(c.tag);
    Chosen(v, UrlOf(c.assets, ArtifactName(s, v)), UrlOf(c.assets, CHECKSUMS))
  }

  /** The version under which a candidate is offered, if it is. */
  function Standing(s: Settings, installed: string, c: Candidate): Option<Version> {
    if Offered(s, installed, c) then Some(Read(Trimmed(c.tag))) else None
  }

  function Standings(s: Settings, installed: string, cs: seq<Candidate>): seq<Option<Version>> {
    seq(|cs|, i requires 0 <= i < |cs| => Standing(s, installed, cs[i]))
  }

  /** Entry `k` is the first of the greatest versions. */
  ghost predicate FirstGreatest(vs: seq<Option<Version>>, k: nat) {
    && k < |vs| && vs[k].Some?
    && (forall i :: 0 <= i < |vs| && vs[i].Some? ==> Precedence(vs[i].value, vs[k].value) <= 0)
    && (forall i :: 0 <= i < k && vs[i].Some? ==> Precedence(vs[i].value, vs[k].value) < 0)
  }

  ghost predicate Decides(s: Settings, installed: string, cs: seq<Candidate>, o: Outcome) {
    match o
    case Untrusted => exists c :: c in cs && Offered(s, installed, c) && !Trusted(s, c)
    case NoneEligible => forall c :: c in cs ==> !Offered(s, installed, c)
    case Selected(r) =>
      && (forall c :: c in cs && Offered(s, installed, c) ==> Trusted(s, c))
      && exists k: nat :: FirstGreatest(Standings(s, installed, cs), k) && r == Release(s, cs[k])
  }

  lemma OrderLaws(x: Version, y: Version, z: Version)
    ensures Precedence(x, y) == -Precedence(y, x) && Precedence(x, x) == 0
    ensures Precedence(x, y) <= 0 && Precedence(y, z) < 0 ==> Precedence(x, z) < 0
    ensures Precedence(x, y) == 0 <==> x == y
  {
    PrecedenceTotal();
    assert Precedence(x, y) == -Precedence(y, x) && (Precedence(x, x) == 0 <==> x == x);
    assert Precedence(x, y) == 0 <==> x == y;
    assert Precedence(x, z) == 0 <==> x == z;
    assert Precedence(z, y) == -Precedence(y, z);
  }

  /** One more entry that is no greater, or is none. */
  lemma StillGreatest(vs: seq<Option<Version>>, v: Option<Version>, k: nat)
    requires FirstGreatest(vs, k) && (v.Some? ==> Precedence(v.value, vs[k].value) <= 0)
    ensures FirstGreatest(vs + [v], k)
  {
  }

  lemma NewGreatest(vs: seq<Option<Version>>, v: Version, k: nat)
    requires FirstGreatest(vs, k) && Precedence(v, vs[k].value) > 0
    ensures FirstGreatest(vs + [Some(v)], |vs|)
  {
    OrderLaws(v, vs[k].value, v);
    forall i | 0 <= i < |vs| && vs[i].Some? ensures Precedence(vs[i].value, v) < 0 {
      OrderLaws(vs[i].value, vs[k].value, v);
    }
  }

  lemma FirstOne(vs: seq<Option<Version>>, v: Version)
    requires forall i :: 0 <= i < |vs| ==> vs[i].None?
    ensures FirstGreatest(vs + [Some(v)], |vs|)
  {
    OrderLaws(v, v, v);
  }

  lemma OneMoreStanding(s: Settings, installed: string, cs: seq<Candidate>, n: nat)
    requires n < |cs|
    ensures Standings(s, installed, cs[..n + 1]) == Standings(s, installed, cs[..n]) + [Standing(s, installed, cs[n])]
  {
  }

  predicate Reads(r: Chosen, v: Option<Version>) { Valid(r.version) && v == Some(Read(r.version)) }

  /** What a candidate offers, or that it is to be skipped. */
  method Consider(s: Settings, installed: string, c: Candidate) returns (r: Option<Chosen>)
    ensures r.Some? <==> Offered(s, installed, c)
    ensures r.Some? == Standing(s, installed, c).Some?
    ensures r.Some? ==> r.value == Release(s, c) && Reads(r.value, Standing(s, installed, c))
  {
    if c.draft {
      return None;
    }
    var version := Trimmed(c.tag);
    var ok := ValidVersion(version);
    if !ok || Channel(version) != s.channel {
      return None;
    }
    var newer := CompareVersions(version, Trimmed(installed));
    if newer <= 0 {
      return None;
    }
    var artifact, checksum := FindAssets(c.assets, ArtifactName(s, version));
    if artifact == "" || checksum == "" {
      return None;
    }
    return Some(Chosen(version, artifact, checksum));
  }

  method Better(a: Chosen, b: Chosen) returns (yes: bool)
    requires Valid(a.version) && Valid(b.version)
    ensures yes <==> Precedence(Read(a.version), Read(b.version)) > 0
  {
    var c := CompareVersions(a.version, b.version);
    ComparedIsPrecedence(a.version, b.version);
    return c > 0;
  }

  predicate Safe(s: Settings, installed: string, c: Candidate) { Offered(s, installed, c) ==> Trusted(s, c) }

  lemma SelectedDecides(s: Settings, installed: string, cs: seq<Candidate>, k: nat)
    requires FirstGreatest(Standings(s, installed, cs), k) && forall i :: 0 <= i < |cs| ==> Safe(s, installed, cs[i])
    ensures Decides(s, installed, cs, Selected(Release(s, cs[k])))
  {
  }

  lemma NoneDecides(s: Settings, installed: string, cs: seq<Candidate>)
    requires forall i :: 0 <= i < |cs| ==> Standings(s, installed, cs)[i].None?
    ensures Decides(s, installed, cs, NoneEligible)
  {
    forall i | 0 <= i < |cs| ensures !Offered(s, installed, cs[i]) {
      assert Standings(s, installed, cs)[i] == Standing(s, installed, cs[i]);
    }
  }

  /** What is chosen is the first greatest of the entries, if there is any. */
  ghost predicate BestSoFar(s: Settings, cs: seq<Candidate>, vs: seq<Option<Version>>, chosen: Option<Chosen>, k: nat) {
    if chosen.None? then forall i :: 0 <= i < |vs| ==> vs[i].None?
    else k < |cs| && FirstGreatest(vs, k) && chosen.value == Release(s, cs[k]) && Reads(chosen.value, vs[k])
  }

  /** Keeps the better of what is chosen and what is offered, the earlier if neither is. */
  method Weigh(s: Settings, ghost cs: seq<Candidate>, ghost vs: seq<Option<Version>>, chosen: Option<Chosen>, ghost k: nat,
               offer: Option<Chosen>, ghost v: Option<Version>)
    returns (out: Option<Chosen>, ghost at: nat)
    requires |vs| < |cs| && BestSoFar(s, cs, vs, chosen, k) && offer.Some? == v.Some?
    requires offer.Some? ==> offer.value == Release(s, cs[|vs|]) && Reads(offer.value, v)
    ensures BestSoFar(s, cs, vs + [v], out, at)
  {
    if offer.None? {
      if chosen.Some? { StillGreatest(vs, v, k); }
      return chosen, k;
    }
    if chosen.None? {
      FirstOne(vs, v.value);
      return offer, |vs|;
    }
    var better := Better(offer.value, chosen.value);
    if better {
      NewGreatest(vs, v.value, k);
      return offer, |vs|;
    }
    StillGreatest(vs, v, k);
    return chosen, k;
  }

  /** The first `n` candidates are safe, and `chosen` is the best of them. */
  ghost predicate Through(s: Settings, installed: string, cs: seq<Candidate>, n: nat, chosen: Option<Chosen>, k: nat) {
    && n <= |cs| && (forall i :: 0 <= i < n ==> Safe(s, installed, cs[i]))
    && BestSoFar(s, cs, Standings(s, installed, cs[..n]), chosen, k)
  }

  /** Considers one more candidate. */
  method Visit(s: Settings, installed: string, cs: seq<Candidate>, n: nat, chosen: Option<Chosen>, ghost k: nat)
    returns (ok: bool, out: Option<Chosen>, ghost at: nat)
    requires n < |cs| && Through(s, installed, cs, n, chosen, k)
    ensures ok <==> Safe(s, installed, cs[n])
    ensures ok ==> Through(s, installed, cs, n + 1, out, at)
  {
    out, at := chosen, k;
    OneMoreStanding(s, installed, cs, n);
    var offer := Consider(s, installed, cs[n]);
    if offer.Some? && !Trusted(s, cs[n]) {
      return false, chosen, k;
    }
    ok := true;
    out, at := Weigh(s, cs, Standings(s, installed, cs[..n]), chosen, k, offer, Standing(s, installed, cs[n]));
  }

  lemma ThroughDecides(s: Settings, installed: string, cs: seq<Candidate>, chosen: Option<Chosen>, k: nat)
    requires Through(s, installed, cs, |cs|, chosen, k)
    ensures Decides(s, installed, cs, if chosen.Some? then Selected(chosen.value) else NoneEligible)
  {
    assert cs[..|cs|] == cs;
    if chosen.Some? {
      SelectedDecides(s, installed, cs, k);
    } else {
      NoneDecides(s, installed, cs);
    }
  }

  lemma NothingYet(s: Settings, installed: string, cs: seq<Candidate>)
    ensures Through(s, installed, cs, 0, None, 0)
  {
  }

  lemma UntrustedDecides(s: Settings, installed: string, cs: seq<Candidate>, n: nat)
    requires n < |cs| && !Safe(s, installed, cs[n])
    ensures Decides(s, installed, cs, Untrusted)
  {
    assert cs[n] in cs;
  }

  /** Goes through the listing once; `chosen` is the best so far. */
  method Choose(s: Settings, installed: string, cs: seq<Candidate>) returns (o: Outcome)
    ensures Decides(s, installed, cs, o)
  {
    var chosen: Option<Chosen> := None;
    ghost var k: nat := 0;
    NothingYet(s, installed, cs);
    for n := 0 to |cs|
      invariant Through(s, installed, cs, n, chosen, k)
    {
      var ok;
      ok, chosen, k := Visit(s, installed, cs, n, chosen, k);
      if !ok {
        UntrustedDecides(s, installed, cs, n);
        return Untrusted;
      }
    }
    ThroughDecides(s, installed, cs, chosen, k);
    return if chosen.Some? then Selected(chosen.value) else NoneEligible;
  }

  /** The listing's order does not matter: the same candidates give the same kind of
      outcome, and the same version in terms of precedence. */
  lemma OrderIsIrrelevant(s: Settings, installed: string, cs: seq<Candidate>, ds: seq<Candidate>, o: Outcome, p: Outcome)
    requires forall c :: c in cs <==> c in ds
    requires Decides(s, installed, cs, o) && Decides(s, installed, ds, p)
    ensures o.Untrusted? == p.Untrusted? && o.NoneEligible? == p.NoneEligible?
    ensures o.Selected? ==> SameVersion(o.release.version, p.release.version)
  {
    if o.Selected? && p.Selected? {
      var i: nat :| FirstGreatest(Standings(s, installed, cs), i) && o.release == Release(s, cs[i]);
      var j: nat :| FirstGreatest(Standings(s, installed, ds), j) && p.release == Release(s, ds[j]);
      GreatestAgree(s, installed, cs, ds, i, j);
    } else if o.Selected? {
      SelectedIsOffered(s, installed, cs, o.release);
    } else if p.Selected? {
      SelectedIsOffered(s, installed, ds, p.release);
    }
  }

  predicate SameVersion(a: string, b: string) { Valid(a) && Valid(b) && Read(a) == Read(b) }

  lemma SelectedIsOffered(s: Settings, installed: string, cs: seq<Candidate>, r: Chosen)
    requires Decides(s, installed, cs, Selected(r))
    ensures exists c :: c in cs && Offered(s, installed, c) && Trusted(s, c) && r == Release(s, c)
  {
    var k: nat :| FirstGreatest(Standings(s, installed, cs), k) && r == Release(s, cs[k]);
    assert Standings(s, installed, cs)[k] == Standing(s, installed, cs[k]);
  }

  lemma GreatestAgree(s: Settings, installed: string, cs: seq<Candidate>, ds: seq<Candidate>, i: nat, j: nat)
    requires forall c :: c in cs <==> c in ds
    requires FirstGreatest(Standings(s, installed, cs), i) && FirstGreatest(Standings(s, installed, ds), j)
    ensures SameVersion(Trimmed(cs[i].tag), Trimmed(ds[j].tag))
  {
    var vs, ws := Standings(s, installed, cs), Standings(s, installed, ds);
    assert cs[i] in ds && ds[j] in cs;
    var i' :| 0 <= i' < |ds| && ds[i'] == cs[i];
    var j' :| 0 <= j' < |cs| && cs[j'] == ds[j];
    assert ws[i'] == vs[i] && vs[j'] == ws[j];
    OrderLaws(vs[i].value, ws[j].value, vs[i].value);
  }

  /** What is chosen is strictly newer than a readable installed version. */
  lemma ChosenIsNewer(s: Settings, installed: string, cs: seq<Candidate>, r: Chosen)
    requires Decides(s, installed, cs, Selected(r)) && Valid(Trimmed(installed))
    ensures Valid(r.version) && Precedence(Read(r.version), Read(Trimmed(installed))) > 0
  {
    SelectedIsOffered(s, installed, cs, r);
    ComparedIsPrecedence(r.version, Trimmed(installed));
  }

  // ---------- which release belongs where ----------

  /** The text occurs at a place, in any case. */
  predicate SaysAt(version: string, part: string, i: nat) {
    i + |part| <= |version| && LowerLabel(version[i..i + |part|]) == part
  }

  ghost predicate Says(version: string, part: string) { exists i: nat :: SaysAt(version, part, i) }

  lemma SaysMeans(version: string, part: string)
    ensures HasPart(LowerLabel(version), part) <==> Says(version, part)
  {
    var lower := LowerLabel(version);
    forall i: nat ensures StartsAt(lower, part, i) <==> SaysAt(version, part, i) {
      if i + |part| <= |version| {
        assert lower[i..i + |part|] == LowerLabel(version[i..i + |part|]);
      }
    }
    if i: nat :| SaysAt(version, part, i) {
      assert i <= |lower| && StartsAt(lower, part, i);
    }
  }

  /** Releases and release candidates are stable; a beta is one that is no alpha; every
      other pre-release is an alpha. */
  lemma ChannelMeans(version: string)
    ensures Channel(version) == "stable" <==> !Says(version, "-") || Says(version, "-rc.")
    ensures Channel(version) == "beta" <==> Says(version, "-") && !Says(version, "-rc.") && !Says(version, "-alpha.") && Says(version, "-beta.")
    ensures Channel(version) == "stable" || Channel(version) == "beta" || Channel(version) == "alpha"
  {
    SaysMeans(version, "-");
    SaysMeans(version, "-rc.");
    SaysMeans(version, "-alpha.");
    SaysMeans(version, "-beta.");
  }

  /** The last asset of that name has the address. */
  ghost predicate LastAsset(assets: seq<Asset>, name: string, i: nat) {
    i < |assets| && assets[i].name == name && forall j :: i < j < |assets| ==> assets[j].name != name
  }

  lemma {:induction false} UrlMeans(assets: seq<Asset>, name: string, i: nat)
    requires LastAsset(assets, name, i)
    ensures UrlOf(assets, name) == assets[i].url
  {
    var n := |assets| - 1;
    if i < n {
      UrlMeans(assets[..n], name, i);
    }
  }

  lemma {:induction false} NoUrl(assets: seq<Asset>, name: string)
    requires forall i :: 0 <= i < |assets| ==> assets[i].name != name
    ensures UrlOf(assets, name) == ""
  {
    if assets != [] {
      NoUrl(assets[..|assets| - 1], name);
    }
  }

  /** The installed version without a leading "v". */
  function Installed(text: string): string { if |text| > 0 && text[0] == 'v' then text[1..] else text }

  /** What is on offer: a release that is no draft, on the channel, above what is installed,
      with the artifact for this architecture and the checksums. */
  ghost predicate OnOffer(s: Settings, installed: string, c: Candidate, r: Chosen) {
    && !c.draft && (c.tag == r.version || c.tag == "v" + r.version) && Valid(r.version) && Channel(r.version) == s.channel
    && (Valid(Installed(installed)) ==> Below(Read(Installed(installed)), Read(r.version)))
    && r.artifact == UrlOf(c.assets, "velora-dns-" + r.version + "-linux-" + s.arch + ".tar.gz") != ""
    && r.checksum == UrlOf(c.assets, "CHECKSUMS.sha256") != ""
  }

  lemma OfferedMeans(s: Settings, installed: string, c: Candidate)
    ensures Offered(s, installed, c) <==> OnOffer(s, installed, c, Release(s, c))
  {
    var v := Trimmed(c.tag);
    if c.tag != [] && c.tag[0] == 'v' {
      assert c.tag == "v" + c.tag[1..];
    }
    if Valid(v) {
      ComparedMeans(v, Trimmed(installed));
      ComparedSign(v, Trimmed(installed));
    }
  }

  /** Where files may come from: from the repository's own releases if the public service is
      asked, and from anywhere otherwise. */
  lemma TrustedMeans(s: Settings, c: Candidate)
    ensures Trusted(s, c) <==> (s.publicApi ==>
              && "https://github.com/" + s.repository + "/releases/download/" <= Release(s, c).artifact
              && "https://github.com/" + s.repository + "/releases/download/" <= Release(s, c).checksum)
  {
  }

  lemma NothingAbove(s: Settings, installed: string, cs: seq<Candidate>, k: nat, c: Candidate)
    requires FirstGreatest(Standings(s, installed, cs), k) && c in cs && Offered(s, installed, c)
    ensures Offered(s, installed, cs[k]) && !Below(Read(Trimmed(cs[k].tag)), Read(Trimmed(c.tag)))
  {
    var vs := Standings(s, installed, cs);
    var i :| 0 <= i < |cs| && cs[i] == c;
    assert vs[i] == Standing(s, installed, c) && vs[k] == Standing(s, installed, cs[k]);
    PrecedenceMeans(Read(Trimmed(c.tag)), Read(Trimmed(cs[k].tag)));
  }

  /** What is chosen is on offer, comes from the repository where that is demanded, and
      nothing on offer is above it. */
  lemma ChosenMeans(s: Settings, installed: string, cs: seq<Candidate>, r: Chosen)
    requires Decides(s, installed, cs, Selected(r))
    ensures exists c :: c in cs && OnOffer(s, installed, c, r)
    ensures s.publicApi ==> "https://github.com/" + s.repository + "/releases/download/" <= r.artifact
    ensures s.publicApi ==> "https://github.com/" + s.repository + "/releases/download/" <= r.checksum
    ensures Valid(r.version) && forall c :: c in cs && Offered(s, installed, c) ==> !Below(Read(r.version), Read(Trimmed(c.tag)))
  {
    var k: nat :| FirstGreatest(Standings(s, installed, cs), k) && r == Release(s, cs[k]);
    assert Standings(s, installed, cs)[k] == Standing(s, installed, cs[k]) && cs[k] in cs;
    OfferedMeans(s, installed, cs[k]);
    forall c | c in cs && Offered(s, installed, c) ensures !Below(Read(r.version), Read(Trimmed(c.tag))) {
      NothingAbove(s, installed, cs, k, c);
    }
  }

  lemma ComparedSign(a: string, b: string)
    requires Valid(a)
    ensures Compared(a, b) > 0 ==> Compared(a, b) == 1
  {
    if Valid(b) {
      PrecedenceSign(Read(a), Read(b));
    }
  }
}
