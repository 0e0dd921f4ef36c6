/**
 What the version order says about version strings as they are written, and which version
 NormalizeAPIGroupResources therefore takes each resource from.
 */
module VersionOrder {
  import opened Wrappers
  import opened Strings
  import opened KubeVersions
  import opened Discovery
  import opened Normalization

  // ---------------------------------------------------------------- version strings as written

  /** Digits whose number fits an int. */
  predicate Numeral(s: string) {
    s != "" && AllDigits(s) && Value(s) <= MAX_INT
  }

  function Ga(major: string): string { "v" + major }

  function Beta(major: string, minor: string): string { "v" + major + "beta" + minor }

  function Alpha(major: string, minor: string): string { "v" + major + "alpha" + minor }

  /** Some way of writing a version. */
  ghost predicate IsVersion(v: string) {
    IsGa(v) || IsBeta(v) || IsAlpha(v)
  }

  ghost predicate IsGa(v: string) {
    exists m :: Numeral(m) && v == Ga(m)
  }

  ghost predicate IsBeta(v: string) {
    exists m, x :: Numeral(m) && Numeral(x) && v == Beta(m, x)
  }

  ghost predicate IsAlpha(v: string) {
    exists m, x :: Numeral(m) && Numeral(x) && v == Alpha(m, x)
  }

  lemma {:induction false} LeadingDigitsEnd(digits: string, rest: string)
    requires AllDigits(digits) && (rest == "" || !IsDigit(rest[0]))
    ensures LeadingDigits(digits + rest) == digits
  {
    var s := digits + rest;
    if digits == "" {
      assert s == rest;
    } else {
      assert s[1..] == digits[1..] + rest;
      LeadingDigitsEnd(digits[1..], rest);
    }
  }

  lemma MajorAndSuffix(m: string, rest: string)
    requires Numeral(m) && (rest == "" || !IsDigit(rest[0]))
    ensures Major("v" + m + rest) == m && Suffix("v" + m + rest) == rest
  {
    var v := "v" + m + rest;
    assert v[1..] == m + rest;
    LeadingDigitsEnd(m, rest);
    assert v[1 + |m|..] == rest;
  }

  lemma ParseGa(m: string)
    requires Numeral(m)
    ensures Parse(Ga(m)) == Some(KubeVersion(Value(m), 2, 0))
  {
    assert Ga(m) == "v" + m + "";
    MajorAndSuffix(m, "");
  }

  lemma BetaSuffix(x: string)
    ensures var s := "beta" + x; s != "" && !IsDigit(s[0]) && Stage(s) == 1 && Minor(s) == x
  {
    var s := "beta" + x;
    assert s[0] == 'b' && "alpha"[0] == 'a' && s[..4] == "beta" && s[4..] == x;
  }

  lemma AlphaSuffix(x: string)
    ensures var s := "alpha" + x; s != "" && !IsDigit(s[0]) && Stage(s) == 0 && Minor(s) == x
  {
    var s := "alpha" + x;
    assert s[..5] == "alpha" && s[5..] == x;
  }

  lemma ParseStaged(v: string, suffix: string)
    requires Numeral(Major(v)) && Suffix(v) == suffix != ""
    requires Stage(suffix) != 2 && Numeral(Minor(suffix))
    ensures Parse(v) == Some(KubeVersion(Value(Major(v)), Stage(suffix), Value(Minor(suffix))))
  {
  }

  lemma ParseBeta(m: string, x: string)
    requires Numeral(m) && Numeral(x)
    ensures Parse(Beta(m, x)) == Some(KubeVersion(Value(m), 1, Value(x)))
  {
    var suffix := "beta" + x;
    BetaSuffix(x);
    MajorAndSuffix(m, suffix);
    JoinedText("v" + m, "beta", x);
    ParseStaged(Beta(m, x), suffix);
  }

  lemma ParseAlpha(m: string, x: string)
    requires Numeral(m) && Numeral(x)
    ensures Parse(Alpha(m, x)) == Some(KubeVersion(Value(m), 0, Value(x)))
  {
    var suffix := "alpha" + x;
    AlphaSuffix(x);
    MajorAndSuffix(m, suffix);
    JoinedText("v" + m, "alpha", x);
    ParseStaged(Alpha(m, x), suffix);
  }

  lemma JoinedText(a: string, b: string, c: string)
    ensures a + b + c == a + (b + c)
  {
  }

  /** The parser accepts exactly what is written as a version. */
  lemma ParsedExactly(v: string)
    ensures Parse(v).Some? <==> IsVersion(v)
  {
    if Parse(v).Some? {
      ParsedIsWritten(v);
    }
    if IsGa(v) {
      var m :| Numeral(m) && v == Ga(m);
      ParseGa(m);
    } else if IsBeta(v) {
      var m, x :| Numeral(m) && Numeral(x) && v == Beta(m, x);
      ParseBeta(m, x);
    } else if IsAlpha(v) {
      var m, x :| Numeral(m) && Numeral(x) && v == Alpha(m, x);
      ParseAlpha(m, x);
    }
  }

  lemma ParsedNumerals(v: string)
    requires Parse(v).Some?
    ensures Numeral(Major(v))
    ensures Suffix(v) != "" ==> Stage(Suffix(v)) < 2 && Numeral(Minor(Suffix(v)))
  {
    assert Stage(Suffix(v)) <= 2;
  }

  lemma ParsedIsWritten(v: string)
    requires Parse(v).Some?
    ensures IsVersion(v)
  {
    var m, suffix := Major(v), Suffix(v);
    Pieces(v);
    ParsedNumerals(v);
    if suffix == "" {
      WrittenGa(v, m);
    } else {
      WrittenStaged(v, m, Stage(suffix), Minor(suffix));
    }
  }

  lemma WrittenGa(v: string, m: string)
    requires Numeral(m) && v == "v" + m + ""
    ensures IsGa(v)
  {
    assert v == Ga(m);
  }

  lemma WrittenStaged(v: string, m: string, stage: nat, x: string)
    requires Numeral(m) && Numeral(x) && stage < 2 && v == "v" + m + (Word(stage) + x)
    ensures IsVersion(v)
  {
    JoinedText("v" + m, Word(stage), x);
    if stage == 0 {
      assert v == Alpha(m, x);
    } else {
      assert v == Beta(m, x);
    }
  }

  // ---------------------------------------------------------------- numbers

  function Digit(n: nat): char
    requires n < 10
  {
    '0' + n as char
  }

  /** A number in decimal. */
  function Decimal(n: nat): string {
    if n < 10 then [Digit(n)] else Decimal(n / 10) + [Digit(n % 10)]
  }

  /** The number of a decimal is the number that was written. */
  lemma {:induction false} ValueOfDecimal(n: nat)
    ensures AllDigits(Decimal(n)) && Decimal(n) != "" && Value(Decimal(n)) == n
  {
    if n >= 10 {
      ValueOfDecimal(n / 10);
      var s := Decimal(n);
      assert s[..|s| - 1] == Decimal(n / 10);
    } else {
      assert Value([Digit(n)]) == Value([Digit(n)][..0]) * 10 + n;
    }
  }

  // ---------------------------------------------------------------- the order on strings

  /** Version v is put before version w. */
  predicate Above(v: string, w: string) {
    Compare(v, w) > 0
  }

  /** Larger numbers first among GA versions. */
  lemma GaByNumber(a: string, b: string)
    requires Numeral(a) && Numeral(b) && Value(a) > Value(b)
    ensures Above(Ga(a), Ga(b)) && !Above(Ga(b), Ga(a))
  {
    ParseGa(a);
    ParseGa(b);
  }

  /** Among betas the major number decides, then the number after the word; among alphas the same. */
  lemma StagedByNumbers(a: string, x: string, b: string, y: string)
    requires Numeral(a) && Numeral(x) && Numeral(b) && Numeral(y)
    requires Value(a) > Value(b) || (Value(a) == Value(b) && Value(x) > Value(y))
    ensures Above(Beta(a, x), Beta(b, y)) && !Above(Beta(b, y), Beta(a, x))
    ensures Above(Alpha(a, x), Alpha(b, y)) && !Above(Alpha(b, y), Alpha(a, x))
  {
    ParseBeta(a, x);
    ParseBeta(b, y);
    ParseAlpha(a, x);
    ParseAlpha(b, y);
  }

  /** Every GA version is above every beta and alpha, every beta above every alpha, whatever the numbers. */
  lemma StagesInOrder(a: string, b: string, x: string, c: string, y: string)
    requires Numeral(a) && Numeral(b) && Numeral(x) && Numeral(c) && Numeral(y)
    ensures Above(Ga(a), Beta(b, x)) && Above(Ga(a), Alpha(c, y)) && Above(Beta(b, x), Alpha(c, y))
    ensures !Above(Beta(b, x), Ga(a)) && !Above(Alpha(c, y), Ga(a)) && !Above(Alpha(c, y), Beta(b, x))
  {
    ParseGa(a);
    ParseBeta(b, x);
    ParseAlpha(c, y);
  }

  /** Every version is above every other string. */
  lemma VersionsFirst(v: string, w: string)
    requires IsVersion(v) && !IsVersion(w)
    ensures Above(v, w) && !Above(w, v)
  {
    ParsedExactly(v);
    ParsedExactly(w);
  }

  /** Other strings go by their text, smaller first. */
  lemma OthersByText(v: string, w: string)
    requires !IsVersion(v) && !IsVersion(w) && v != w
    ensures Above(v, w) <==> LexLess(v, w)
  {
    ParsedExactly(v);
    ParsedExactly(w);
    LexTotal(v, w);
  }

  /** The text order is decided at the first difference; a proper prefix is smaller. */
  lemma {:induction false} LexByFirstDifference(common: string, a: string, b: string)
    ensures a != "" && b != "" && a[0] < b[0] ==> LexLess(common + a, common + b)
    ensures a == "" && b != "" ==> LexLess(common + a, common + b)
  {
    if common == "" {
      assert common + a == a && common + b == b;
    } else {
      assert (common + a)[1..] == common[1..] + a && (common + b)[1..] == common[1..] + b;
      LexByFirstDifference(common[1..], a, b);
    }
  }

  lemma SmallNumeral(n: nat, s: string)
    requires n < 100 && s == Decimal(n)
    ensures Numeral(s) && Value(s) == n
  {
    ValueOfDecimal(n);
  }

  lemma OneDigit()
    ensures Numeral("1") && Value("1") == 1 && Numeral("2") && Value("2") == 2 && Numeral("3") && Value("3") == 3
  {
    SmallNumeral(1, "1");
    SmallNumeral(2, "2");
    SmallNumeral(3, "3");
  }

  lemma TwoDigits()
    ensures Numeral("10") && Value("10") == 10 && Numeral("11") && Value("11") == 11
    ensures Numeral("12") && Value("12") == 12
  {
    assert Decimal(10) == Decimal(1) + ['0'] && Decimal(11) == Decimal(1) + ['1'] && Decimal(12) == Decimal(1) + ['2'];
    SmallNumeral(10, "10");
    SmallNumeral(11, "11");
    SmallNumeral(12, "12");
  }

  lemma Texts()
    ensures "v2" == Ga("2") && "v1" == Ga("1") && "v10" == Ga("10")
    ensures "v1beta2" == Beta("1", "2") && "v1beta1" == Beta("1", "1")
    ensures "v1alpha1" == Alpha("1", "1") && "v12alpha1" == Alpha("12", "1")
  {
  }

  lemma GaLink(v: string, w: string, a: string, b: string)
    requires v == Ga(a) && w == Ga(b) && Numeral(a) && Numeral(b) && Value(a) > Value(b)
    ensures Above(v, w)
  {
    GaByNumber(a, b);
  }

  lemma BetaLink(v: string, w: string, a: string, x: string, y: string)
    requires v == Beta(a, x) && w == Beta(a, y) && Numeral(a) && Numeral(x) && Numeral(y) && Value(x) > Value(y)
    ensures Above(v, w)
  {
    StagedByNumbers(a, x, a, y);
  }

  lemma StageLink(v: string, w: string, u: string, a: string, b: string, x: string, c: string, y: string)
    requires v == Ga(a) && w == Beta(b, x) && u == Alpha(c, y)
    requires Numeral(a) && Numeral(b) && Numeral(x) && Numeral(c) && Numeral(y)
    ensures Above(v, w) && Above(v, u) && Above(w, u)
  {
    StagesInOrder(a, b, x, c, y);
  }

  /** The order that the source documents: v2, v1, v1beta2, v1beta1, v1alpha1. */
  lemma DocumentedChain()
    ensures Above("v2", "v1") && Above("v1", "v1beta2") && Above("v1beta2", "v1beta1") && Above("v1beta1", "v1alpha1")
  {
    Texts();
    OneDigit();
    GaLink("v2", "v1", "2", "1");
    BetaLink("v1beta2", "v1beta1", "1", "2", "1");
    StageLink("v1", "v1beta2", "v1alpha1", "1", "1", "2", "1", "1");
    StageLink("v1", "v1beta1", "v1alpha1", "1", "1", "1", "1", "1");
  }

  /** Numbers count as numbers, v10 above v2, and the word before the numbers, v1 above v12alpha1. */
  lemma NumbersNotText()
    ensures Above("v10", "v2") && Above("v1", "v12alpha1")
  {
    Texts();
    OneDigit();
    TwoDigits();
    GaLink("v10", "v2", "10", "2");
    StageLink("v1", "v1beta1", "v12alpha1", "1", "1", "1", "12", "1");
  }

  // ---------------------------------------------------------------- what the normalisation takes

  /** The entries that version v offers under a name, as the API server sent them. */
  predicate Offers(g: GroupResources, v: string, n: string) {
    v in g.versioned && exists i | 0 <= i < |g.versioned[v]| :: g.versioned[v][i].name == n
  }

  lemma {:induction false} ClassOfStamped(group: string, v: string, rs: seq<ApiResource>, n: string)
    ensures Class(StampAll(group, v, rs), v, n) != [] <==> exists i | 0 <= i < |rs| :: rs[i].name == n
  {
    var s := StampAll(group, v, rs);
    if exists i | 0 <= i < |rs| :: rs[i].name == n {
      var i :| 0 <= i < |rs| && rs[i].name == n;
      assert s[i] in s && s[i].version == v && s[i].name == n;
      ClassMember(s, v, n, s[i]);
    }
    if Class(s, v, n) != [] {
      ClassMember(s, v, n, Class(s, v, n)[0]);
      var i :| 0 <= i < |s| && s[i] == Class(s, v, n)[0];
      assert rs[i].name == n;
    }
  }

  lemma OffersExactly(g: GroupResources, v: string, n: string)
    ensures Offers(g, v, n) <==> Offered(g, v, n) != []
  {
    if v in g.versioned {
      ClassOfStamped(g.group, v, g.versioned[v], n);
    }
  }

  /** Exactly the offered names are in the result, each once; an entry is what a version sent under that name, with the
      group's name and that version written over it. */
  lemma ResultIsOffered(g: GroupResources, order: seq<string>)
    requires OrderOf(order, g.versioned.Keys)
    ensures forall n :: NameIn(Normalized(g, order), n) <==> exists v :: Offers(g, v, n)
    ensures Unique(Normalized(g, order))
    ensures forall x | x in Normalized(g, order) :: IsSent(g, x)
  {
    OutcomeMeans(g, order);
    var r := Normalized(g, order);
    forall n
      ensures NameIn(r, n) <==> exists v :: Offers(g, v, n)
    {
      forall v
        ensures Offers(g, v, n) <==> Offered(g, v, n) != []
      {
        OffersExactly(g, v, n);
      }
    }
    forall x | x in r
      ensures IsSent(g, x)
    {
      SentIfOffered(g, x);
    }
  }

  ghost predicate IsSent(g: GroupResources, x: ApiResource) {
    && x.group == g.group && x.version in g.versioned
    && exists i | 0 <= i < |g.versioned[x.version]| ::
         x == g.versioned[x.version][i].(group := g.group, version := x.version)
  }

  lemma SentIfOffered(g: GroupResources, x: ApiResource)
    requires Offered(g, x.version, x.name) != [] && Offered(g, x.version, x.name)[0] == x
    ensures IsSent(g, x)
  {
    var rs := g.versioned[x.version];
    var s := StampAll(g.group, x.version, rs);
    ClassMember(s, x.version, x.name, x);
    var i :| 0 <= i < |s| && s[i] == x;
    assert x == rs[i].(group := g.group, version := x.version);
  }

  /** A name that the preferred version offers comes from the preferred version. */
  lemma PreferredWins(g: GroupResources, order: seq<string>, x: ApiResource)
    requires OrderOf(order, g.versioned.Keys) && Separated(g.preferred, g.versioned.Keys)
    requires x in Normalized(g, order) && Offers(g, g.preferred, x.name)
    ensures x.version == g.preferred
  {
    OutcomeMeans(g, order);
    OffersExactly(g, g.preferred, x.name);
    assert NotBeaten(g, x, g.preferred);
  }

  /** Otherwise a name never comes from a version when one above it offers it too. */
  lemma HigherWins(g: GroupResources, order: seq<string>, x: ApiResource, v: string, w: string)
    requires OrderOf(order, g.versioned.Keys) && Separated(g.preferred, g.versioned.Keys)
    requires x in Normalized(g, order) && Offers(g, v, x.name) && w != g.preferred && Above(v, w)
    ensures x.version != w
  {
    OutcomeMeans(g, order);
    OffersExactly(g, v, x.name);
    assert NotBeaten(g, x, v);
    CompareOpposite(v, w);
    CompareOpposite(w, v);
  }

  // ---------------------------------------------------------------- in which order it comes

  lemma {:induction false} FirstWinsSorted(p: string, s: seq<ApiResource>)
    requires Sorted(p, s)
    ensures Sorted(p, FirstWins(s))
    ensures forall x | x in FirstWins(s) :: x in s
  {
    if s != [] {
      var init, last := s[..|s| - 1], s[|s| - 1];
      FirstWinsSorted(p, init);
      var r := FirstWins(init);
      assert forall i | 0 <= i < |r| :: r[i] in init;
      assert forall x | x in init :: !Less(p, last, x);
    }
  }

  /** The result goes by version, the preferred one first, then higher ones first, and by name within a version. */
  lemma ResultInOrder(g: GroupResources, order: seq<string>, i: nat, k: nat)
    requires OrderOf(order, g.versioned.Keys) && Separated(g.preferred, g.versioned.Keys)
    requires i < k < |Normalized(g, order)|
    ensures var x, y := Normalized(g, order)[i], Normalized(g, order)[k];
      if x.version == y.version then LexLess(x.name, y.name)
      else y.version != g.preferred && (x.version == g.preferred || Above(x.version, y.version))
  {
    var r := Normalized(g, order);
    var x, y := r[i], r[k];
    GatheredSorts(g, order);
    FirstWinsSorted(g.preferred, SortedStably(g.preferred, Gathered(g, order)));
    OutcomeMeans(g, order);
    assert x in r && y in r && x.name != y.name;
    LexTotal(x.name, y.name);
    SentIfOffered(g, x);
    SentIfOffered(g, y);
    LessTotal(g.preferred, g.versioned.Keys, x, y);
  }

  // ---------------------------------------------------------------- for instance

  function Foos(kind: string): ApiResource {
    ApiResource("foos", "foo", true, "", "", kind, [], [], [], NoHash)
  }

  /** Group a, preferred version v3, foos under v1 and v2: the result is foos of v2, in every map order. */
  lemma FoosOfV2(order: seq<string>)
    requires OrderOf(order, {"v1", "v2"})
    ensures var g := GroupResources("a", "v3", map["v1" := [Foos("Old")], "v2" := [Foos("New")]]);
      Normalized(g, order) == [Foos("New").(group := "a", version := "v2")]
  {
    var g := GroupResources("a", "v3", map["v1" := [Foos("Old")], "v2" := [Foos("New")]]);
    assert g.versioned.Keys == {"v1", "v2"};
    V1AndV2();
    OnlyFoos(g, order);
  }

  lemma SeparatedPair(p: string, v: string, w: string)
    requires Above(v, w)
    ensures Separated(p, {w, v})
  {
    CompareOpposite(v, w);
  }

  lemma V1AndV2()
    ensures Above("v2", "v1") && Separated("v3", {"v1", "v2"}) && "v1" != "v2" && "v3" != "v1"
  {
    DocumentedChain();
    SeparatedPair("v3", "v2", "v1");
    assert "v1"[1] != "v2"[1] && "v3"[1] != "v1"[1];
  }

  lemma OnlyFoos(g: GroupResources, order: seq<string>)
    requires g.group == "a" && g.preferred == "v3" && g.versioned.Keys == {"v1", "v2"}
    requires g.versioned["v1"] == [Foos("Old")] && g.versioned["v2"] == [Foos("New")]
    requires Above("v2", "v1") && Separated("v3", {"v1", "v2"}) && "v1" != "v2" && "v3" != "v1"
    requires OrderOf(order, g.versioned.Keys)
    ensures Normalized(g, order) == [Foos("New").(group := "a", version := "v2")]
  {
    var r := Normalized(g, order);
    var latest := Foos("New").(group := "a", version := "v2");
    ResultIsOffered(g, order);
    assert g.versioned["v2"][0].name == "foos";
    assert Offers(g, "v2", "foos");
    assert NameIn(r, "foos");
    forall i | 0 <= i < |r|
      ensures r[i] == latest
    {
      assert r[i] in r && IsSent(g, r[i]);
      HigherWins(g, order, r[i], "v2", "v1");
    }
    AllSameUnique(r, latest);
  }

  lemma AllSameUnique(r: seq<ApiResource>, x: ApiResource)
    requires Unique(r) && forall i | 0 <= i < |r| :: r[i] == x
    ensures |r| <= 1
  {
    assert |r| > 1 ==> r[0].name != r[1].name;
  }
}
