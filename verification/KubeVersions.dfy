/**
 Kube-aware version strings: v1, v2beta1, v1alpha3 and anything else, and the order
 apimachinery's version package puts them in.
 */
module KubeVersions {
  import opened Wrappers

  const MAX_INT := 0x7fff_ffff_ffff_ffff

  // ---------------------------------------------------------------- plain strings

  predicate LexLess(a: string, b: string) {
    if b == "" then false
    else if a == "" then true
    else if a[0] != b[0] then a[0] < b[0]
    else LexLess(a[1..], b[1..])
  }

  lemma {:induction false} LexTotal(a: string, b: string)
    ensures LexLess(a, b) || LexLess(b, a) || a == b
    ensures !(LexLess(a, b) && LexLess(b, a))
    ensures !LexLess(a, a)
  {
    if a != "" {
      LexTotal(a[1..], a[1..]);
    }
    if a != "" && b != "" && a[0] == b[0] {
      LexTotal(a[1..], b[1..]);
      assert a == [a[0]] + a[1..] && b == [b[0]] + b[1..];
    }
  }

  lemma {:induction false} LexTransitive(a: string, b: string, c: string)
    requires LexLess(a, b) && LexLess(b, c)
    ensures LexLess(a, c)
  {
    if a != "" && a[0] == b[0] && b[0] == c[0] {
      LexTransitive(a[1..], b[1..], c[1..]);
    }
  }

  // ---------------------------------------------------------------- digits

  predicate IsDigit(c: char) { '0' <= c <= '9' }

  predicate AllDigits(s: string) {
    forall i | 0 <= i < |s| :: IsDigit(s[i])
  }

  function LeadingDigits(s: string): (d: string)
    ensures d <= s && AllDigits(d)
  {
    if s == "" || !IsDigit(s[0]) then "" else [s[0]] + LeadingDigits(s[1..])
  }

  function Value(s: string): nat
    requires AllDigits(s)
  {
    if s == "" then 0 else Value(s[..|s| - 1]) * 10 + (s[|s| - 1] - '0') as nat
  }

  /** Written without a leading zero. */
  predicate Canonical(s: string) {
    s != "" && (s[0] == '0' ==> |s| == 1)
  }

  lemma {:induction false} ValuePositive(s: string)
    requires AllDigits(s) && s != "" && s[0] != '0'
    ensures Value(s) > 0
  {
    if |s| > 1 {
      ValuePositive(s[..|s| - 1]);
    }
  }

  lemma {:induction false} ValueInjective(s: string, t: string)
    requires AllDigits(s) && AllDigits(t) && Canonical(s) && Canonical(t)
    requires Value(s) == Value(t)
    ensures s == t
    decreases |s|
  {
    var s', t' := s[..|s| - 1], t[..|t| - 1];
    assert s == s' + [s[|s| - 1]] && t == t' + [t[|t| - 1]];
    if |s| > 1 { ValuePositive(s'); }
    if |t| > 1 { ValuePositive(t'); }
    assert Value(s) == Value(s') * 10 + (s[|s| - 1] - '0') as nat;
    assert Value(t) == Value(t') * 10 + (t[|t| - 1] - '0') as nat;
    if |s| > 1 {
      ValueInjective(s', t');
    } else {
      assert |t| == 1;
    }
  }

  // ---------------------------------------------------------------- parsing

  /** `stage` is 0 for alpha, 1 for beta, 2 for GA. */
  datatype KubeVersion = KubeVersion(major: nat, stage: nat, minor: nat)

  function Major(v: string): string {
    if v != "" && v[0] == 'v' then LeadingDigits(v[1..]) else ""
  }

  function Suffix(v: string): string {
    if v != "" && v[0] == 'v' then v[1 + |Major(v)|..] else v
  }

  function Stage(suffix: string): nat {
    if "alpha" <= suffix then 0 else if "beta" <= suffix then 1 else 2
  }

  function Word(stage: nat): string {
    if stage == 0 then "alpha" else if stage == 1 then "beta" else ""
  }

  function Minor(suffix: string): string {
    if "alpha" <= suffix then suffix[5..] else if "beta" <= suffix then suffix[4..] else suffix
  }

  /** v, digits, and optionally alpha or beta with digits; numbers must fit an int. */
  function Parse(v: string): Option<KubeVersion> {
    var major, suffix := Major(v), Suffix(v);
    var minor := Minor(suffix);
    if major == "" || Value(major) > MAX_INT then None
    else if suffix == "" then Some(KubeVersion(Value(major), 2, 0))
    else if Stage(suffix) == 2 || minor == "" || !AllDigits(minor) || Value(minor) > MAX_INT then None
    else Some(KubeVersion(Value(major), Stage(suffix), Value(minor)))
  }

  predicate CanonicalVersion(v: string) {
    Parse(v).Some? ==> Canonical(Major(v)) && (Suffix(v) == "" || Canonical(Minor(Suffix(v))))
  }

  lemma SuffixPieces(suffix: string)
    requires Stage(suffix) != 2
    ensures suffix == Word(Stage(suffix)) + Minor(suffix)
  {
    if "alpha" <= suffix {
      assert suffix == suffix[..5] + suffix[5..];
    } else {
      assert suffix == suffix[..4] + suffix[4..];
    }
  }

  lemma ParsedShape(v: string)
    requires Parse(v).Some?
    ensures v != "" && v[0] == 'v'
    ensures Suffix(v) == "" || Stage(Suffix(v)) != 2
  {
  }

  lemma MajorPieces(v: string)
    requires v != "" && v[0] == 'v'
    ensures v == "v" + Major(v) + Suffix(v)
  {
    assert v == [v[0]] + v[1..];
    assert v[1..] == Major(v) + Suffix(v);
  }

  lemma Pieces(v: string)
    requires Parse(v).Some?
    ensures v == "v" + Major(v) + (if Suffix(v) == "" then "" else Word(Stage(Suffix(v))) + Minor(Suffix(v)))
  {
    ParsedShape(v);
    MajorPieces(v);
    var suffix := Suffix(v);
    if suffix != "" {
      SuffixPieces(suffix);
    }
  }

  /** Versions written canonically parse to different values unless they are the same string. */
  lemma CanonicalParseInjective(v: string, w: string)
    requires CanonicalVersion(v) && CanonicalVersion(w)
    requires Parse(v).Some? && Parse(v) == Parse(w)
    ensures v == w
  {
    Pieces(v);
    Pieces(w);
    ValueInjective(Major(v), Major(w));
    if Suffix(v) != "" {
      ValueInjective(Minor(Suffix(v)), Minor(Suffix(w)));
    }
  }

  // ---------------------------------------------------------------- comparison

  /** CompareKubeAwareVersionStrings; only the sign is used. */
  function Compare(v: string, w: string): int {
    if v == w then 0 else CompareParsed(v, w, Parse(v), Parse(w))
  }

  function CompareParsed(v: string, w: string, parsedV: Option<KubeVersion>, parsedW: Option<KubeVersion>): int {
    match (parsedV, parsedW)
    case (None, None) => if LexLess(w, v) then -1 else 1
    case (None, Some(_)) => -1
    case (Some(_), None) => 1
    case (Some(a), Some(b)) =>
      if a.stage != b.stage then a.stage - b.stage
      else if a.major != b.major then a.major - b.major
      else a.minor - b.minor
  }

  lemma CompareOpposite(v: string, w: string)
    ensures Compare(v, w) > 0 <==> Compare(w, v) < 0
  {
    if v != w {
      ParsedOpposite(v, w, Parse(v), Parse(w));
    }
  }

  lemma ParsedOpposite(v: string, w: string, a: Option<KubeVersion>, b: Option<KubeVersion>)
    requires v != w
    ensures CompareParsed(v, w, a, b) > 0 <==> CompareParsed(w, v, b, a) < 0
  {
    match (a, b)
    case (None, None) => LexTotal(v, w);
    case _ =>
  }

  lemma CompareTransitive(v: string, w: string, x: string)
    requires Compare(v, w) > 0 && Compare(w, x) > 0
    ensures Compare(v, x) > 0
  {
    ParsedTransitive(v, w, x, Parse(v), Parse(w), Parse(x));
    CompareOpposite(v, w);
  }

  lemma ParsedTransitive(v: string, w: string, x: string,
                         a: Option<KubeVersion>, b: Option<KubeVersion>, c: Option<KubeVersion>)
    requires v != w && w != x && CompareParsed(v, w, a, b) > 0 && CompareParsed(w, x, b, c) > 0
    ensures CompareParsed(v, x, a, c) > 0
  {
    if a.None? && b.None? && c.None? {
      LexTotal(v, w);
      LexTotal(w, x);
      LexTransitive(v, w, x);
      LexTotal(v, x);
    }
  }

  /** Two versions tie exactly when they are equal or parse to the same version. */
  lemma TieExactly(v: string, w: string)
    ensures Compare(v, w) == 0 <==> v == w || (Parse(v).Some? && Parse(v) == Parse(w))
  {
  }
}
