/** Version texts and their precedence: section 11 of Semantic Versioning 2.0.0. */
module Versions {
  import opened Dns

  // ---------- texts ----------

  function Before(s: string, c: char): string { if s == [] || s[0] == c then [] else [s[0]] + Before(s[1..], c) }

  /** What follows the first `c`; nothing when there is none. */
  function After(s: string, c: char): (r: string)
    ensures c in s ==> |r| < |s|
  {
    if s == [] then [] else if s[0] == c then s[1..] else After(s[1..], c)
  }

  function Split(s: string, c: char): (parts: seq<string>)
    ensures parts != []
    decreases |s|
  {
    if c in s then [Before(s, c)] + Split(After(s, c), c) else [s]
  }

  function Join(parts: seq<string>, c: char): string {
    if parts == [] then [] else if |parts| == 1 then parts[0] else parts[0] + [c] + Join(parts[1..], c)
  }

  lemma {:induction false} BeforeAfter(s: string, c: char)
    requires c in s
    ensures s == Before(s, c) + [c] + After(s, c)
  {
    if s[0] != c {
      BeforeAfter(s[1..], c);
      assert s == [s[0]] + s[1..];
    }
  }

  lemma {:induction false} JoinSplit(s: string, c: char)
    ensures Join(Split(s, c), c) == s
    decreases |s|
  {
    if c in s {
      BeforeAfter(s, c);
      JoinSplit(After(s, c), c);
      var rest := Split(After(s, c), c);
      assert ([Before(s, c)] + rest)[1..] == rest;
    }
  }

  predicate Digit(c: char) { '0' <= c <= '9' }

  predicate AllDigits(s: string) { forall i :: 0 <= i < |s| ==> Digit(s[i]) }

  function DigitValue(c: char): (d: nat)
    requires Digit(c)
    ensures d <= 9
  {
    c as int - '0' as int
  }

  function Value(s: string): nat
    requires AllDigits(s)
  {
    if s == [] then 0 else Value(s[..|s| - 1]) * 10 + DigitValue(s[|s| - 1])
  }

  const LIMIT := 0x1_0000_0000_0000_0000

  predicate Numeral(s: string) { s != [] && AllDigits(s) && Value(s) < LIMIT }

  /** A number without superfluous zeros. */
  predicate Shortest(s: string) { s == "0" || (s != [] && s[0] != '0') }

  lemma {:induction false} PositiveValue(s: string)
    requires s != [] && s[0] != '0' && AllDigits(s)
    ensures Value(s) > 0
  {
    if |s| > 1 {
      PositiveValue(s[..|s| - 1]);
    } else {
      assert DigitValue(s[0]) > 0;
    }
  }

  lemma {:induction false} ValueUnique(s: string, t: string)
    requires Numeral(s) && Numeral(t) && Shortest(s) && Shortest(t) && Value(s) == Value(t)
    ensures s == t
  {
    DigitsUnique(if s == "0" then [] else s, if t == "0" then [] else t);
  }

  /** Without leading zeros the digits are determined by the value. */
  lemma {:induction false} DigitsUnique(s: string, t: string)
    requires AllDigits(s) && AllDigits(t)
    requires (s != [] ==> s[0] != '0') && (t != [] ==> t[0] != '0') && Value(s) == Value(t)
    ensures s == t
  {
    if s == [] && t != [] {
      PositiveValue(t);
    } else if s != [] && t == [] {
      PositiveValue(s);
    } else if s != [] {
      var a, b := s[..|s| - 1], t[..|t| - 1];
      var d, e := DigitValue(s[|s| - 1]), DigitValue(t[|t| - 1]);
      assert Value(a) * 10 + d == Value(b) * 10 + e;
      DigitsUnique(a, b);
      assert s == a + [s[|s| - 1]] && t == b + [t[|t| - 1]];
    }
  }

  // ---------- orders ----------

  ghost predicate Antisymmetric<T(!new)>(cmp: (T, T) -> int) {
    forall x, y :: cmp(x, y) == -cmp(y, x)
  }

  ghost predicate Exact<T(!new)>(cmp: (T, T) -> int) {
    forall x, y :: cmp(x, y) == 0 <==> x == y
  }

  ghost predicate Transitive<T(!new)>(cmp: (T, T) -> int) {
    forall x, y, z :: cmp(x, y) <= 0 && cmp(y, z) <= 0 ==> cmp(x, z) <= 0
  }

  ghost predicate TotalOrder<T(!new)>(cmp: (T, T) -> int) { Antisymmetric(cmp) && Exact(cmp) && Transitive(cmp) }

  /** The first difference decides; a proper prefix comes first. */
  function Lexicographic<T(==)>(cmp: (T, T) -> int, xs: seq<T>, ys: seq<T>): int {
    if xs == [] then (if ys == [] then 0 else -1)
    else if ys == [] then 1
    else if cmp(xs[0], ys[0]) != 0 then cmp(xs[0], ys[0])
    else Lexicographic(cmp, xs[1..], ys[1..])
  }

  function ByElements<T(==)>(cmp: (T, T) -> int): (seq<T>, seq<T>) -> int { (xs, ys) => Lexicographic(cmp, xs, ys) }

  lemma {:induction false} LexAntisymmetric<T(!new)>(cmp: (T, T) -> int, xs: seq<T>, ys: seq<T>)
    requires TotalOrder(cmp)
    ensures Lexicographic(cmp, xs, ys) == -Lexicographic(cmp, ys, xs)
  {
    if xs != [] && ys != [] {
      LexAntisymmetric(cmp, xs[1..], ys[1..]);
    }
  }

  lemma {:induction false} LexExact<T(!new)>(cmp: (T, T) -> int, xs: seq<T>, ys: seq<T>)
    requires TotalOrder(cmp)
    ensures Lexicographic(cmp, xs, ys) == 0 <==> xs == ys
  {
    if xs != [] && ys != [] {
      LexExact(cmp, xs[1..], ys[1..]);
      assert xs == [xs[0]] + xs[1..] && ys == [ys[0]] + ys[1..];
    }
  }

  lemma {:induction false} LexTransitive<T(!new)>(cmp: (T, T) -> int, xs: seq<T>, ys: seq<T>, zs: seq<T>)
    requires TotalOrder(cmp)
    requires Lexicographic(cmp, xs, ys) <= 0 && Lexicographic(cmp, ys, zs) <= 0
    ensures Lexicographic(cmp, xs, zs) <= 0
  {
    if xs != [] && ys != [] && zs != [] {
      var x, y, z := xs[0], ys[0], zs[0];
      assert cmp(x, y) <= 0 && cmp(y, z) <= 0 && cmp(x, z) <= 0;
      if cmp(x, z) == 0 {
        assert x == z && cmp(x, y) == -cmp(y, x);
        LexTransitive(cmp, xs[1..], ys[1..], zs[1..]);
      }
    }
  }

  lemma LexTotal<T(!new)>(cmp: (T, T) -> int)
    requires TotalOrder(cmp)
    ensures TotalOrder(ByElements(cmp))
  {
    forall xs, ys ensures ByElements(cmp)(xs, ys) == -ByElements(cmp)(ys, xs) && (ByElements(cmp)(xs, ys) == 0 <==> xs == ys) {
      LexAntisymmetric(cmp, xs, ys);
      LexExact(cmp, xs, ys);
    }
    forall xs, ys, zs | ByElements(cmp)(xs, ys) <= 0 && ByElements(cmp)(ys, zs) <= 0 ensures ByElements(cmp)(xs, zs) <= 0 {
      LexTransitive(cmp, xs, ys, zs);
    }
  }

  // ---------- versions ----------

  datatype Identifier = Number(n: nat) | Text(s: string)

  /** Numbers, and the identifiers of a pre-release. */
  datatype Version = Version(numbers: seq<nat>, pre: Option<seq<Identifier>>)

  function CompareNat(a: nat, b: nat): int { if a > b then 1 else if a < b then -1 else 0 }
  function CompareChar(a: char, b: char): int { if a > b then 1 else if a < b then -1 else 0 }

  function CompareText(a: string, b: string): int { Lexicographic(CompareChar, a, b) }

  function CompareIdentifier(a: Identifier, b: Identifier): int {
    match (a, b)
    case (Number(n), Number(m)) => CompareNat(n, m)
    case (Number(_), Text(_)) => -1
    case (Text(_), Number(_)) => 1
    case (Text(s), Text(t)) => CompareText(s, t)
  }

  function CompareIdentifiers(a: seq<Identifier>, b: seq<Identifier>): int { Lexicographic(CompareIdentifier, a, b) }

  /** A release follows its pre-releases. */
  function ComparePre(a: Option<seq<Identifier>>, b: Option<seq<Identifier>>): int {
    match (a, b)
    case (None, None) => 0
    case (None, Some(_)) => 1
    case (Some(_), None) => -1
    case (Some(x), Some(y)) => CompareIdentifiers(x, y)
  }

  function Precedence(a: Version, b: Version): int {
    var c := Lexicographic(CompareNat, a.numbers, b.numbers);
    if c != 0 then c else ComparePre(a.pre, b.pre)
  }

  lemma TextTotal()
    ensures TotalOrder(CompareText)
  {
    LexTotal(CompareChar);
    forall a, b ensures CompareText(a, b) == ByElements(CompareChar)(a, b) {
    }
  }

  lemma IdentifierTotal()
    ensures TotalOrder(CompareIdentifier)
  {
    TextTotal();
    forall x, y ensures CompareIdentifier(x, y) == -CompareIdentifier(y, x) && (CompareIdentifier(x, y) == 0 <==> x == y) {
      if x.Text? && y.Text? {
        assert CompareText(x.s, y.s) == -CompareText(y.s, x.s);
      }
    }
    forall x, y, z | CompareIdentifier(x, y) <= 0 && CompareIdentifier(y, z) <= 0 ensures CompareIdentifier(x, z) <= 0 {
      if x.Text? && y.Text? && z.Text? {
        assert CompareText(x.s, y.s) <= 0 && CompareText(y.s, z.s) <= 0;
      }
    }
  }

  lemma PreTotal()
    ensures TotalOrder(ComparePre)
  {
    IdentifierTotal();
    LexTotal(CompareIdentifier);
    var f := ByElements(CompareIdentifier);
    forall x, y ensures ComparePre(x, y) == -ComparePre(y, x) && (ComparePre(x, y) == 0 <==> x == y) {
      if x.Some? && y.Some? {
        assert f(x.value, y.value) == -f(y.value, x.value);
        assert f(x.value, y.value) == 0 <==> x.value == y.value;
      }
    }
    forall x, y, z | ComparePre(x, y) <= 0 && ComparePre(y, z) <= 0 ensures ComparePre(x, z) <= 0 {
      if x.Some? && y.Some? && z.Some? {
        assert f(x.value, y.value) <= 0 && f(y.value, z.value) <= 0;
      }
    }
  }

  /** Precedence is a total order on versions, zero only between equal ones. */
  lemma PrecedenceTotal()
    ensures TotalOrder(Precedence)
  {
    PreTotal();
    LexTotal(CompareNat);
    var f := ByElements(CompareNat);
    forall x, y ensures Precedence(x, y) == -Precedence(y, x) && (Precedence(x, y) == 0 <==> x == y) {
      assert f(x.numbers, y.numbers) == -f(y.numbers, x.numbers);
      assert f(x.numbers, y.numbers) == 0 <==> x.numbers == y.numbers;
      assert ComparePre(x.pre, y.pre) == -ComparePre(y.pre, x.pre);
      assert ComparePre(x.pre, y.pre) == 0 <==> x.pre == y.pre;
    }
    forall x, y, z | Precedence(x, y) <= 0 && Precedence(y, z) <= 0 ensures Precedence(x, z) <= 0 {
      assert f(x.numbers, y.numbers) <= 0 && f(y.numbers, z.numbers) <= 0;
      assert f(x.numbers, z.numbers) <= 0;
      if f(x.numbers, z.numbers) == 0 {
        assert x.numbers == z.numbers;
        assert f(x.numbers, y.numbers) == -f(y.numbers, x.numbers);
        assert ComparePre(x.pre, y.pre) <= 0 && ComparePre(y.pre, z.pre) <= 0;
      }
    }
  }

  // ---------- what precedence means ----------

  /** Both sequences go on at `i`, where they differ for the first time. */
  predicate DifferAt<T(==)>(xs: seq<T>, ys: seq<T>, i: nat) { i < |xs| && i < |ys| && xs[..i] == ys[..i] && xs[i] != ys[i] }

  predicate ProperPrefix<T(==)>(xs: seq<T>, ys: seq<T>) { |xs| < |ys| && ys[..|xs|] == xs }

  /** Text order: the first differing character decides, a proper prefix comes first. */
  ghost predicate TextBelow(s: string, t: string) { ProperPrefix(s, t) || exists i: nat :: DifferAt(s, t, i) && s[i] < t[i] }

  /** Numbers compare as numbers, and come before texts. */
  ghost predicate IdentifierBelow(x: Identifier, y: Identifier) {
    match (x, y)
    case (Number(n), Number(m)) => n < m
    case (Number(_), Text(_)) => true
    case (Text(_), Number(_)) => false
    case (Text(s), Text(t)) => TextBelow(s, t)
  }

  /** The first differing identifier decides; fewer identifiers come first. */
  ghost predicate PreBelow(xs: seq<Identifier>, ys: seq<Identifier>) {
    ProperPrefix(xs, ys) || exists i: nat :: DifferAt(xs, ys, i) && IdentifierBelow(xs[i], ys[i])
  }

  /** Section 11 of Semantic Versioning: the first differing number decides; a version with
      a pre-release comes before the same version without; else the pre-releases decide. */
  ghost predicate Below(a: Version, b: Version) {
    || ProperPrefix(a.numbers, b.numbers)
    || (exists i: nat :: DifferAt(a.numbers, b.numbers, i) && a.numbers[i] < b.numbers[i])
    || (a.numbers == b.numbers && a.pre.Some? && (b.pre.None? || PreBelow(a.pre.value, b.pre.value)))
  }

  /** Sequences are equal, or one is a proper prefix, or there is a first difference. */
  lemma {:induction false} FirstDifference<T>(xs: seq<T>, ys: seq<T>)
    ensures xs == ys || ProperPrefix(xs, ys) || ProperPrefix(ys, xs) || exists i: nat :: DifferAt(xs, ys, i)
  {
    if xs != [] && ys != [] {
      if xs[0] != ys[0] {
        assert DifferAt(xs, ys, 0);
      } else {
        FirstDifference(xs[1..], ys[1..]);
        assert xs == [xs[0]] + xs[1..] && ys == [ys[0]] + ys[1..];
        if i: nat :| DifferAt(xs[1..], ys[1..], i) {
          assert xs[..i + 1] == [xs[0]] + xs[1..][..i] && ys[..i + 1] == [ys[0]] + ys[1..][..i];
          assert DifferAt(xs, ys, i + 1);
        } else if ProperPrefix(xs[1..], ys[1..]) {
          assert ys[..|xs|] == [ys[0]] + ys[1..][..|xs| - 1];
        } else if ProperPrefix(ys[1..], xs[1..]) {
          assert xs[..|ys|] == [xs[0]] + xs[1..][..|ys| - 1];
        }
      }
    } else if xs == [] && ys != [] {
      assert ys[..0] == xs;
    } else if ys == [] && xs != [] {
      assert xs[..0] == ys;
    }
  }

  lemma {:induction false} LexAtDifference<T(!new)>(cmp: (T, T) -> int, xs: seq<T>, ys: seq<T>, i: nat)
    requires Exact(cmp) && DifferAt(xs, ys, i)
    ensures Lexicographic(cmp, xs, ys) == cmp(xs[i], ys[i]) != 0
  {
    if i > 0 {
      assert xs[0] == xs[..i][0] == ys[..i][0] == ys[0];
      assert xs[1..][..i - 1] == xs[..i][1..] && ys[1..][..i - 1] == ys[..i][1..];
      LexAtDifference(cmp, xs[1..], ys[1..], i - 1);
    }
  }

  lemma {:induction false} LexOfPrefix<T(!new)>(cmp: (T, T) -> int, xs: seq<T>, ys: seq<T>)
    requires Exact(cmp) && ProperPrefix(xs, ys)
    ensures Lexicographic(cmp, xs, ys) == -1 && Lexicographic(cmp, ys, xs) == 1
  {
    if xs != [] {
      assert xs[0] == ys[..|xs|][0] == ys[0];
      assert ys[1..][..|xs| - 1] == ys[..|xs|][1..];
      LexOfPrefix(cmp, xs[1..], ys[1..]);
    }
  }

  /** An order of elements, carried to sequences. */
  ghost predicate SequenceBelow<T(!new)>(below: (T, T) -> bool, xs: seq<T>, ys: seq<T>) {
    ProperPrefix(xs, ys) || exists i: nat :: DifferAt(xs, ys, i) && below(xs[i], ys[i])
  }

  lemma {:induction false} LexMeans<T(!new)>(cmp: (T, T) -> int, below: (T, T) -> bool, xs: seq<T>, ys: seq<T>)
    requires TotalOrder(cmp) && forall x, y :: below(x, y) <==> cmp(x, y) < 0
    ensures Lexicographic(cmp, xs, ys) < 0 <==> SequenceBelow(below, xs, ys)
  {
    FirstDifference(xs, ys);
    LexExact(cmp, xs, ys);
    if ProperPrefix(xs, ys) {
      LexOfPrefix(cmp, xs, ys);
    } else if ProperPrefix(ys, xs) {
      LexOfPrefix(cmp, ys, xs);
    }
    forall i: nat | DifferAt(xs, ys, i) ensures Lexicographic(cmp, xs, ys) < 0 <==> below(xs[i], ys[i]) {
      LexAtDifference(cmp, xs, ys, i);
    }
  }

  lemma TextMeans(s: string, t: string)
    ensures CompareText(s, t) < 0 <==> TextBelow(s, t)
  {
    LexMeans(CompareChar, (x: char, y: char) => x < y, s, t);
  }

  lemma IdentifierMeans(x: Identifier, y: Identifier)
    ensures CompareIdentifier(x, y) < 0 <==> IdentifierBelow(x, y)
  {
    if x.Text? && y.Text? {
      TextMeans(x.s, y.s);
    }
  }

  lemma IdentifiersMean(xs: seq<Identifier>, ys: seq<Identifier>)
    ensures CompareIdentifiers(xs, ys) < 0 <==> PreBelow(xs, ys)
  {
    IdentifierTotal();
    var below := (x: Identifier, y: Identifier) => CompareIdentifier(x, y) < 0;
    LexMeans(CompareIdentifier, below, xs, ys);
    forall i: nat | DifferAt(xs, ys, i) ensures below(xs[i], ys[i]) <==> IdentifierBelow(xs[i], ys[i]) {
      IdentifierMeans(xs[i], ys[i]);
    }
  }

  lemma NumbersMean(xs: seq<nat>, ys: seq<nat>)
    ensures Lexicographic(CompareNat, xs, ys) < 0 <==> ProperPrefix(xs, ys) || exists i: nat :: DifferAt(xs, ys, i) && xs[i] < ys[i]
    ensures Lexicographic(CompareNat, xs, ys) == 0 <==> xs == ys
  {
    LexMeans(CompareNat, (x: nat, y: nat) => x < y, xs, ys);
    LexExact(CompareNat, xs, ys);
  }

  lemma PrecedenceBelow(a: Version, b: Version)
    ensures Precedence(a, b) < 0 <==> Below(a, b)
  {
    NumbersMean(a.numbers, b.numbers);
    if a.pre.Some? && b.pre.Some? {
      IdentifiersMean(a.pre.value, b.pre.value);
    }
    if a.numbers == b.numbers {
      assert forall i: nat :: !DifferAt(a.numbers, b.numbers, i);
    }
  }

  lemma {:induction false} LexSign<T(!new)>(cmp: (T, T) -> int, xs: seq<T>, ys: seq<T>)
    requires forall x, y :: -1 <= cmp(x, y) <= 1
    ensures -1 <= Lexicographic(cmp, xs, ys) <= 1
  {
    if xs != [] && ys != [] {
      LexSign(cmp, xs[1..], ys[1..]);
    }
  }

  lemma PrecedenceSign(a: Version, b: Version)
    ensures -1 <= Precedence(a, b) <= 1
  {
    LexSign(CompareNat, a.numbers, b.numbers);
    forall x, y ensures -1 <= CompareIdentifier(x, y) <= 1 {
      if x.Text? && y.Text? {
        LexSign(CompareChar, x.s, y.s);
      }
    }
    if a.pre.Some? && b.pre.Some? {
      LexSign(CompareIdentifier, a.pre.value, b.pre.value);
    }
  }

  /** Precedence is the order of Semantic Versioning. */
  lemma PrecedenceMeans(a: Version, b: Version)
    ensures Precedence(a, b) == -1 <==> Below(a, b)
    ensures Precedence(a, b) == 1 <==> Below(b, a)
    ensures Precedence(a, b) == 0 <==> a == b
  {
    PrecedenceTotal();
    assert Precedence(a, b) == -Precedence(b, a);
    assert Precedence(a, b) == 0 <==> a == b;
    PrecedenceBelow(a, b);
    PrecedenceBelow(b, a);
    PrecedenceSign(a, b);
    PrecedenceSign(b, a);
  }

  // ---------- reading versions ----------

  function Parts(version: string): seq<string> { Split(Before(version, '-'), '.') }
  function PreText(version: string): string { After(version, '-') }

  predicate Valid(version: string) {
    var p := Parts(version); |p| == 3 && Numeral(p[0]) && Numeral(p[1]) && Numeral(p[2])
  }

  method ValidVersion(version: string) returns (ok: bool)
    ensures ok == Valid(version)
  {
    var parts := Split(Before(version, '-'), '.');
    if |parts| != 3 {
      return false;
    }
    for i := 0 to |parts|
      invariant forall j :: 0 <= j < i ==> Numeral(parts[j])
    {
      if !Numeral(parts[i]) {
        return false;
      }
    }
    return true;
  }

  function ReadIdentifier(s: string): Identifier { if Numeral(s) then Number(Value(s)) else Text(s) }

  function Identifiers(pre: string): seq<Identifier> {
    var parts := Split(pre, '.');
    seq(|parts|, i requires 0 <= i < |parts| => ReadIdentifier(parts[i]))
  }

  function Numbers(version: string): seq<nat>
    requires Valid(version)
  {
    var p := Parts(version);
    [Value(p[0]), Value(p[1]), Value(p[2])]
  }

  function Read(version: string): Version
    requires Valid(version)
  {
    Version(Numbers(version), if PreText(version) == [] then None else Some(Identifiers(PreText(version))))
  }

  /** Equal versions whose pre-release texts differ: only in zeros before a number. */
  predicate Ambiguous(a: string, b: string)
    requires Valid(a) && Valid(b)
  {
    Read(a) == Read(b) && PreText(a) != PreText(b)
  }

  /** What the comparison of two texts gives. */
  function Compared(a: string, b: string): int
    requires Valid(a)
  {
    if !Valid(b) then 1 else if Ambiguous(a, b) then -1 else Precedence(Read(a), Read(b))
  }

  method CompareVersions(a: string, b: string) returns (r: int)
    requires Valid(a)
    ensures r == Compared(a, b)
    ensures r == 1 <==> !Valid(b) || Below(Read(b), Read(a))
    ensures r == 0 <==> Valid(b) && Numbers(a) == Numbers(b) && PreText(a) == PreText(b)
  {
    ComparedMeans(a, b);
    var ok := ValidVersion(b);
    if !ok {
      return 1;
    }
    var an, bn := Numbers(a), Numbers(b);
    var ap, bp := PreText(a), PreText(b);
    for i := 0 to 3
      invariant forall j :: 0 <= j < i ==> an[j] == bn[j]
      invariant Lexicographic(CompareNat, an, bn) == Lexicographic(CompareNat, an[i..], bn[i..])
    {
      assert an[i..][1..] == an[i + 1..] && bn[i..][1..] == bn[i + 1..];
      if an[i] > bn[i] {
        return 1;
      }
      if an[i] < bn[i] {
        return -1;
      }
    }
    assert an == bn;
    if ap == bp {
      SameComparesZero(Identifiers(ap));
      return 0;
    }
    if ap == "" {
      return 1;
    }
    if bp == "" {
      return -1;
    }
    r := ComparePreText(ap, bp);
    LexZero(Identifiers(ap), Identifiers(bp));
  }

  lemma {:induction false} SameComparesZero(xs: seq<Identifier>)
    ensures CompareIdentifiers(xs, xs) == 0
  {
    LexZero(xs, xs);
  }

  lemma LexZero(xs: seq<Identifier>, ys: seq<Identifier>)
    ensures CompareIdentifiers(xs, ys) == 0 <==> xs == ys
  {
    IdentifierTotal();
    LexExact(CompareIdentifier, xs, ys);
  }

  /** Pre-release texts, identifier by identifier; texts with equal identifiers are
      reported as smaller, whichever comes first. */
  method ComparePreText(ap: string, bp: string) returns (r: int)
    ensures var c := CompareIdentifiers(Identifiers(ap), Identifiers(bp)); r == if c == 0 then -1 else c
  {
    var aParts, bParts := Split(ap, '.'), Split(bp, '.');
    ghost var xs, ys := Identifiers(ap), Identifiers(bp);
    var i := 0;
    while i < |aParts| && i < |bParts|
      invariant i <= |aParts| && i <= |bParts|
      invariant CompareIdentifiers(xs, ys) == CompareIdentifiers(xs[i..], ys[i..])
    {
      assert xs[i..][1..] == xs[i + 1..] && ys[i..][1..] == ys[i + 1..];
      var a, b := aParts[i], bParts[i];
      assert xs[i] == ReadIdentifier(a) && ys[i] == ReadIdentifier(b);
      if Numeral(a) && Numeral(b) {
        if Value(a) > Value(b) {
          return 1;
        }
        if Value(a) < Value(b) {
          return -1;
        }
        i := i + 1;
        continue;
      }
      if Numeral(a) {
        return -1;
      }
      if Numeral(b) {
        return 1;
      }
      if CompareText(a, b) > 0 {
        TextSign(a, b);
        return 1;
      }
      if CompareText(a, b) < 0 {
        TextSign(a, b);
        return -1;
      }
      i := i + 1;
    }
    if |aParts| > |bParts| {
      return 1;
    }
    return -1;
  }

  lemma {:induction false} TextSign(a: string, b: string)
    ensures -1 <= CompareText(a, b) <= 1
  {
    if a != [] && b != [] {
      TextSign(a[1..], b[1..]);
    }
  }

  // ---------- what the comparison is ----------

  /** The comparison is precedence exactly where the texts are unambiguous; otherwise it
      calls each smaller than the other. */
  lemma ComparedIsPrecedence(a: string, b: string)
    requires Valid(a) && Valid(b)
    ensures Compared(a, b) == Precedence(Read(a), Read(b)) <==> !Ambiguous(a, b)
    ensures Ambiguous(a, b) ==> Compared(a, b) == Compared(b, a) == -1
    ensures Compared(a, b) > 0 <==> Precedence(Read(a), Read(b)) > 0
  {
    PrecedenceTotal();
    assert Read(a) == Read(b) ==> Precedence(Read(a), Read(b)) == 0;
  }

  /** What the comparison of two version texts says: the first is greater exactly if the
      second is no version or comes below it, and neither exactly if they have the same
      numbers and the same pre-release text. */
  lemma ComparedMeans(a: string, b: string)
    requires Valid(a)
    ensures Compared(a, b) == 1 <==> !Valid(b) || Below(Read(b), Read(a))
    ensures Valid(b) ==> (Compared(a, b) == 0 <==> Numbers(a) == Numbers(b) && PreText(a) == PreText(b))
    ensures Valid(b) ==> (Compared(a, b) == -1 <==> Below(Read(a), Read(b)) || Ambiguous(a, b))
  {
    if Valid(b) {
      PrecedenceMeans(Read(a), Read(b));
      PrecedenceMeans(Read(b), Read(a));
    }
  }

  /** No numeric identifier of the pre-release has superfluous zeros. */
  predicate Canonical(version: string) {
    forall p :: p in Split(PreText(version), '.') && Numeral(p) ==> Shortest(p)
  }

  lemma {:induction false} CanonicalIsUnambiguous(a: string, b: string)
    requires Valid(a) && Valid(b) && Canonical(a) && Canonical(b)
    ensures !Ambiguous(a, b)
  {
    if Read(a) == Read(b) && PreText(a) != [] {
      var xs, ys := Split(PreText(a), '.'), Split(PreText(b), '.');
      assert Identifiers(PreText(a)) == Identifiers(PreText(b));
      forall i | 0 <= i < |xs| ensures |xs| == |ys| && xs[i] == ys[i] {
        assert |xs| == |Identifiers(PreText(a))| == |ys|;
        assert Identifiers(PreText(a))[i] == Identifiers(PreText(b))[i];
        SameIdentifier(xs[i], ys[i]);
      }
      assert |xs| == |Identifiers(PreText(a))| == |ys|;
      assert xs == ys;
      JoinSplit(PreText(a), '.');
      JoinSplit(PreText(b), '.');
    }
  }

  lemma SameIdentifier(s: string, t: string)
    requires (Numeral(s) ==> Shortest(s)) && (Numeral(t) ==> Shortest(t)) && ReadIdentifier(s) == ReadIdentifier(t)
    ensures s == t
  {
    if Numeral(s) {
      ValueUnique(s, t);
    }
  }

  /** On canonical versions the comparison is a total order: antisymmetric, transitive, and
      zero only for equal versions. */
  lemma ComparedIsTotal(a: string, b: string, c: string)
    requires Valid(a) && Valid(b) && Valid(c) && Canonical(a) && Canonical(b) && Canonical(c)
    ensures Compared(a, b) == -Compared(b, a)
    ensures Compared(a, b) == 0 <==> Read(a) == Read(b)
    ensures Compared(a, b) <= 0 && Compared(b, c) <= 0 ==> Compared(a, c) <= 0
  {
    PrecedenceTotal();
    CanonicalIsUnambiguous(a, b);
    CanonicalIsUnambiguous(b, a);
    CanonicalIsUnambiguous(b, c);
    CanonicalIsUnambiguous(a, c);
    var x, y, z := Read(a), Read(b), Read(c);
    assert Precedence(x, y) == -Precedence(y, x);
    assert Precedence(x, y) == 0 <==> x == y;
  }

  lemma {:induction false} Threes()
    ensures Split("1.0.0", '.') == ["1", "0", "0"]
  {
    assert Before("1.0.0", '.') == "1" && After("1.0.0", '.') == "0.0";
    assert Before("0.0", '.') == "0" && After("0.0", '.') == "0";
    assert Split("0", '.') == ["0"] && Split("0.0", '.') == ["0", "0"];
  }

  lemma {:induction false} SmallNumerals()
    ensures Numeral("0") && Numeral("1") && Numeral("01") && Value("1") == Value("01") == 1
  {
    assert Value("") == 0 && "0"[..0] == "" && "1"[..0] == "" && "01"[..1] == "0";
    assert Value("0") == 0;
  }

  lemma {:induction false} CutAtDash()
    ensures Before("1.0.0-1", '-') == Before("1.0.0-01", '-') == "1.0.0"
    ensures After("1.0.0-1", '-') == "1" && After("1.0.0-01", '-') == "01"
  {
  }

  /** What canonical versions exclude: each of these two is called the smaller. */
  lemma {:induction false} AmbiguousWitness()
    ensures Valid("1.0.0-1") && Valid("1.0.0-01") && Ambiguous("1.0.0-1", "1.0.0-01")
  {
    CutAtDash();
    Threes();
    SmallNumerals();
    assert Split("1", '.') == ["1"] && Split("01", '.') == ["01"];
    assert Identifiers("1") == [Number(1)] && Identifiers("01") == [Number(1)];
  }
}
