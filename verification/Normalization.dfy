/**
 NormalizeAPIGroupResources: gather every version's resources in map order, sort them, keep the
 first of each name. Only `name`, `group` and `version` of a resource matter to the algorithm.
 */
module Normalization {
  import opened KubeVersions
  import opened Discovery

  datatype GroupResources = GroupResources(group: string, preferred: string, versioned: map<string, seq<ApiResource>>)

  /** The comparator passed to the sort. */
  predicate Less(preferred: string, a: ApiResource, b: ApiResource) {
    if a.version == b.version then LexLess(a.name, b.name)
    else if a.version == preferred then true
    else if b.version == preferred then false
    else Compare(a.version, b.version) > 0
  }

  /** Version v comes before version w: the preferred one first, then by kube-aware order. */
  predicate Before(preferred: string, v: string, w: string) {
    v != w && (v == preferred || (w != preferred && Compare(v, w) > 0))
  }

  /** No two versions, other than the preferred one, tie. */
  ghost predicate Separated(preferred: string, versions: set<string>) {
    forall v, w | v in versions && w in versions && v != w && v != preferred && w != preferred :: Compare(v, w) != 0
  }

  /** Canonically written versions never tie. */
  lemma CanonicalSeparated(preferred: string, versions: set<string>)
    requires forall v | v in versions :: CanonicalVersion(v)
    ensures Separated(preferred, versions)
  {
    forall v, w | v in versions && w in versions && v != w
      ensures Compare(v, w) != 0
    {
      TieExactly(v, w);
      if Parse(v).Some? && Parse(v) == Parse(w) {
        CanonicalParseInjective(v, w);
      }
    }
  }

  // ---------------------------------------------------------------- the comparator

  lemma LessIrreflexive(p: string, a: ApiResource, b: ApiResource)
    ensures !(Less(p, a, b) && Less(p, b, a)) && !Less(p, a, a)
  {
    LexTotal(a.name, b.name);
    LexTotal(a.name, a.name);
    CompareOpposite(a.version, b.version);
  }

  lemma LessTransitive(p: string, a: ApiResource, b: ApiResource, c: ApiResource)
    requires Less(p, a, b) && Less(p, b, c)
    ensures Less(p, a, c)
  {
    if a.version == b.version == c.version {
      LexTransitive(a.name, b.name, c.name);
    } else if a.version != b.version && b.version != c.version {
      if b.version != p && a.version != p {
        CompareTransitive(a.version, b.version, c.version);
        CompareOpposite(a.version, b.version);
      }
      if a.version == c.version {
        LessIrreflexive(p, a, b);
        CompareOpposite(a.version, b.version);
      }
    }
  }

  /** The comparator orders any two distinct (version, name) pairs, over all names, exactly when no versions tie. */
  lemma LessTotalExactly(p: string, versions: set<string>)
    ensures Separated(p, versions)
       <==> forall a: ApiResource, b: ApiResource | a.version in versions && b.version in versions ::
              Less(p, a, b) || Less(p, b, a) || SamePair(a, b)
  {
    if Separated(p, versions) {
      forall a: ApiResource, b: ApiResource | a.version in versions && b.version in versions
        ensures Less(p, a, b) || Less(p, b, a) || SamePair(a, b)
      {
        LessTotal(p, versions, a, b);
      }
    } else {
      var v, w :| v in versions && w in versions && v != w && v != p && w != p && Compare(v, w) == 0;
      CompareOpposite(w, v);
      var a := ApiResource("", "", false, "", v, "", [], [], [], NoHash);
      var b := a.(version := w);
      assert !Less(p, a, b) && !Less(p, b, a) && !SamePair(a, b);
    }
  }

  predicate SamePair(a: ApiResource, b: ApiResource) {
    a.version == b.version && a.name == b.name
  }

  lemma LessTotal(p: string, versions: set<string>, a: ApiResource, b: ApiResource)
    requires Separated(p, versions) && a.version in versions && b.version in versions
    ensures Less(p, a, b) || Less(p, b, a) || SamePair(a, b)
  {
    LexTotal(a.name, b.name);
    CompareOpposite(b.version, a.version);
  }

  // ---------------------------------------------------------------- stable sorting

  /** The entries of one (version, name) pair, in order. */
  function Class(s: seq<ApiResource>, v: string, n: string): seq<ApiResource> {
    if s == [] then []
    else (if s[0].version == v && s[0].name == n then [s[0]] else []) + Class(s[1..], v, n)
  }

  lemma {:induction false} ClassAppend(s: seq<ApiResource>, t: seq<ApiResource>, v: string, n: string)
    ensures Class(s + t, v, n) == Class(s, v, n) + Class(t, v, n)
  {
    if s == [] {
      assert s + t == t;
    } else {
      assert (s + t)[1..] == s[1..] + t;
      ClassAppend(s[1..], t, v, n);
    }
  }

  lemma {:induction false} ClassMember(s: seq<ApiResource>, v: string, n: string, r: ApiResource)
    ensures r in Class(s, v, n) <==> r in s && r.version == v && r.name == n
  {
    if s != [] {
      ClassMember(s[1..], v, n, r);
      assert s == [s[0]] + s[1..];
    }
  }

  predicate Sorted(p: string, s: seq<ApiResource>) {
    forall i, k | 0 <= i < k < |s| :: !Less(p, s[k], s[i])
  }

  /** Where the sort places the next element: after everything it is not less than. */
  function Insert(p: string, s: seq<ApiResource>, x: ApiResource): seq<ApiResource> {
    if s == [] || !Less(p, x, s[|s| - 1]) then s + [x]
    else Insert(p, s[..|s| - 1], x) + [s[|s| - 1]]
  }

  lemma {:induction false} InsertClass(p: string, s: seq<ApiResource>, x: ApiResource, v: string, n: string)
    ensures Class(Insert(p, s, x), v, n) == Class(s + [x], v, n)
  {
    if s != [] && Less(p, x, s[|s| - 1]) {
      var init, last := s[..|s| - 1], s[|s| - 1];
      InsertClass(p, init, x, v, n);
      ClassAppend(Insert(p, init, x), [last], v, n);
      ClassAppend(init, [x], v, n);
      ClassAppend(s, [x], v, n);
      ClassAppend(init, [last], v, n);
      assert s == init + [last];
      LessIrreflexive(p, x, last);
      LexTotal(x.name, x.name);
      assert !SamePair(x, last);
    }
  }

  lemma {:induction false} InsertMembers(p: string, s: seq<ApiResource>, x: ApiResource)
    ensures forall y :: y in Insert(p, s, x) <==> y in s || y == x
  {
    if s != [] && Less(p, x, s[|s| - 1]) {
      InsertMembers(p, s[..|s| - 1], x);
      assert s == s[..|s| - 1] + [s[|s| - 1]];
    }
  }

  lemma {:induction false} InsertSorted(p: string, versions: set<string>, s: seq<ApiResource>, x: ApiResource)
    requires Sorted(p, s) && Separated(p, versions)
    requires x.version in versions && forall y | y in s :: y.version in versions
    ensures Sorted(p, Insert(p, s, x))
  {
    var r := Insert(p, s, x);
    if s == [] {
    } else if !Less(p, x, s[|s| - 1]) {
      forall i | 0 <= i < |s|
        ensures !Less(p, x, s[i])
      {
        if Less(p, x, s[i]) {
          NotLessTransitive(p, versions, s[i], s[|s| - 1], x);
        }
      }
    } else {
      var init, last := s[..|s| - 1], s[|s| - 1];
      InsertSorted(p, versions, init, x);
      InsertMembers(p, init, x);
      var front := Insert(p, init, x);
      forall y | y in front
        ensures !Less(p, last, y)
      {
        if y == x {
          LessIrreflexive(p, x, last);
        } else {
          var i :| 0 <= i < |init| && init[i] == y;
          assert s[i] == y;
        }
      }
      assert forall i | 0 <= i < |front| :: front[i] in front;
    }
  }

  lemma NotLessTransitive(p: string, versions: set<string>, a: ApiResource, b: ApiResource, c: ApiResource)
    requires Separated(p, versions) && a.version in versions && b.version in versions && c.version in versions
    requires !Less(p, c, b) && !Less(p, b, a)
    ensures !Less(p, c, a)
  {
    if Less(p, c, a) {
      LessTotal(p, versions, a, b);
      LessTotal(p, versions, b, c);
      if Less(p, a, b) {
        LessTransitive(p, c, a, b);
      }
    }
  }

  /** Two sorted sequences with the same classes are the same: the sort has one possible answer. */
  lemma {:induction false} SortedIsUnique(p: string, versions: set<string>, s: seq<ApiResource>, t: seq<ApiResource>)
    requires Separated(p, versions) && Sorted(p, s) && Sorted(p, t)
    requires forall y | y in s :: y.version in versions
    requires forall v, n :: Class(s, v, n) == Class(t, v, n)
    ensures s == t
    decreases |s|
  {
    if s == [] {
      if t != [] {
        ClassMember(t, t[0].version, t[0].name, t[0]);
        ClassMember(s, t[0].version, t[0].name, t[0]);
      }
    } else {
      ClassMember(s, s[0].version, s[0].name, s[0]);
      ClassMember(t, s[0].version, s[0].name, s[0]);
      assert s[0] in t;
      ClassMember(t, t[0].version, t[0].name, t[0]);
      ClassMember(s, t[0].version, t[0].name, t[0]);
      assert t[0] in s;
      HeadIsLeast(p, s, t[0]);
      HeadIsLeast(p, t, s[0]);
      LessTotal(p, versions, s[0], t[0]);
      assert SamePair(s[0], t[0]);
      assert Class(s, s[0].version, s[0].name)[0] == s[0];
      assert Class(t, s[0].version, s[0].name)[0] == t[0];
      forall v, n
        ensures Class(s[1..], v, n) == Class(t[1..], v, n)
      {
        var c := if s[0].version == v && s[0].name == n then [s[0]] else [];
        assert Class(s, v, n) == c + Class(s[1..], v, n);
        assert Class(t, v, n) == c + Class(t[1..], v, n);
        assert Class(s[1..], v, n) == Class(s, v, n)[|c|..];
        assert Class(t[1..], v, n) == Class(t, v, n)[|c|..];
      }
      SortedIsUnique(p, versions, s[1..], t[1..]);
      assert s == [s[0]] + s[1..] && t == [t[0]] + t[1..];
    }
  }

  lemma HeadIsLeast(p: string, s: seq<ApiResource>, y: ApiResource)
    requires Sorted(p, s) && y in s
    ensures !Less(p, y, s[0])
  {
    var i :| 0 <= i < |s| && s[i] == y;
    LessIrreflexive(p, y, y);
  }

  // ---------------------------------------------------------------- the algorithm

  function Stamp(group: string, version: string, r: ApiResource): ApiResource {
    r.(group := group, version := version)
  }

  function StampAll(group: string, version: string, rs: seq<ApiResource>): seq<ApiResource> {
    seq(|rs|, i requires 0 <= i < |rs| => Stamp(group, version, rs[i]))
  }

  /** The entries of a name that version v offers, in that version's order. */
  function Offered(g: GroupResources, v: string, n: string): seq<ApiResource> {
    if v in g.versioned then Class(StampAll(g.group, v, g.versioned[v]), v, n) else []
  }

  /** `s` holds exactly what the versions offer, each version's repetitions in its order. */
  ghost predicate GatheringOf(g: GroupResources, s: seq<ApiResource>) {
    forall v, n :: Class(s, v, n) == Offered(g, v, n)
  }

  /** A gathering, sorted stably. */
  ghost predicate SortOf(g: GroupResources, s: seq<ApiResource>) {
    Sorted(g.preferred, s) && GatheringOf(g, s)
  }

  lemma {:induction false} ClassElsewhere(s: seq<ApiResource>, v: string, n: string)
    requires forall y | y in s :: y.version != v
    ensures Class(s, v, n) == []
  {
    if s != [] {
      ClassElsewhere(s[1..], v, n);
    }
  }

  /** `order` yields the versions of a map, each once. */
  ghost predicate OrderOf(order: seq<string>, versions: set<string>) {
    && (forall i, k | 0 <= i < k < |order| :: order[i] != order[k])
    && (forall v :: v in order <==> v in versions)
  }

  /** What the nested loops gather when the map yields its versions in this order. */
  function Gathered(g: GroupResources, order: seq<string>): seq<ApiResource>
    requires forall v | v in order :: v in g.versioned
  {
    if order == [] then []
    else
      var last := order[|order| - 1];
      Gathered(g, order[..|order| - 1]) + StampAll(g.group, last, g.versioned[last])
  }

  /** Whatever the order, each pair has exactly its offered entries. */
  lemma {:induction false} GatheredClasses(g: GroupResources, order: seq<string>)
    requires forall v | v in order :: v in g.versioned
    requires forall i, k | 0 <= i < k < |order| :: order[i] != order[k]
    ensures forall v, n :: Class(Gathered(g, order), v, n) == if v in order then Offered(g, v, n) else []
    ensures forall y | y in Gathered(g, order) :: y.version in order
  {
    if order != [] {
      var before, last := order[..|order| - 1], order[|order| - 1];
      var added := StampAll(g.group, last, g.versioned[last]);
      GatheredClasses(g, before);
      forall v, n
        ensures Class(Gathered(g, order), v, n) == if v in order then Offered(g, v, n) else []
      {
        ClassAppend(Gathered(g, before), added, v, n);
        if v != last {
          ClassElsewhere(added, v, n);
        }
      }
    }
  }

  /** The nested loops over the map of versions, in whatever order the map yields them. */
  method Gather(g: GroupResources) returns (all: seq<ApiResource>, ghost order: seq<string>)
    ensures OrderOf(order, g.versioned.Keys) && all == Gathered(g, order)
    ensures forall v, n :: Class(all, v, n) == Offered(g, v, n)
    ensures forall y | y in all :: y.version in g.versioned
  {
    all, order := [], [];
    var todo := g.versioned.Keys;
    while todo != {}
      invariant todo <= g.versioned.Keys && OrderOf(order, g.versioned.Keys - todo)
      invariant all == Gathered(g, order)
      decreases |todo|
    {
      var version :| version in todo;
      var vr := g.versioned[version];
      ghost var before := all;
      ghost var added := StampAll(g.group, version, vr);
      for i := 0 to |vr|
        invariant all == before + added[..i]
      {
        all := all + [vr[i].(group := g.group, version := version)];
      }
      assert added[..|vr|] == added;
      assert (order + [version])[..|order|] == order;
      order, todo := order + [version], todo - {version};
    }
    GatheredClasses(g, order);
  }

  /** What a stable insertion sort by the comparator makes of a sequence. */
  function SortedStably(p: string, s: seq<ApiResource>): seq<ApiResource> {
    if s == [] then [] else Insert(p, SortedStably(p, s[..|s| - 1]), s[|s| - 1])
  }

  lemma {:induction false} SortMembers(p: string, s: seq<ApiResource>)
    ensures forall y :: y in SortedStably(p, s) <==> y in s
  {
    if s != [] {
      var init, last := s[..|s| - 1], s[|s| - 1];
      SortMembers(p, init);
      InsertMembers(p, SortedStably(p, init), last);
      assert s == init + [last];
    }
  }

  /** The sort keeps every pair's entries in their order. */
  lemma {:induction false} SortClasses(p: string, s: seq<ApiResource>)
    ensures forall v, n :: Class(SortedStably(p, s), v, n) == Class(s, v, n)
  {
    if s != [] {
      SortClasses(p, s[..|s| - 1]);
      assert s[..|s| - 1 + 1] == s;
      InsertKeepsClasses(p, SortedStably(p, s[..|s| - 1]), s, |s| - 1);
    }
  }

  /** When no versions tie, the sort sorts. */
  lemma {:induction false} SortSorts(p: string, versions: set<string>, s: seq<ApiResource>)
    requires Separated(p, versions) && forall y | y in s :: y.version in versions
    ensures Sorted(p, SortedStably(p, s))
  {
    if s != [] {
      SortSorts(p, versions, s[..|s| - 1]);
      SortMembers(p, s[..|s| - 1]);
      InsertSorted(p, versions, SortedStably(p, s[..|s| - 1]), s[|s| - 1]);
    }
  }

  /** What is sorted already stays as it is, ties included. */
  lemma {:induction false} SortKeepsSorted(p: string, s: seq<ApiResource>)
    requires Sorted(p, s)
    ensures SortedStably(p, s) == s
  {
    if s != [] {
      SortKeepsSorted(p, s[..|s| - 1]);
    }
  }

  /** A stable sort by the comparator. When no versions tie the result is sorted. */
  method StableSort(p: string, s: seq<ApiResource>, ghost versions: set<string>) returns (t: seq<ApiResource>)
    requires forall y | y in s :: y.version in versions
    ensures t == SortedStably(p, s)
    ensures forall v, n :: Class(t, v, n) == Class(s, v, n)
    ensures Separated(p, versions) ==> Sorted(p, t)
    ensures Sorted(p, s) ==> t == s
  {
    t := [];
    for i := 0 to |s|
      invariant t == SortedStably(p, s[..i])
    {
      assert s[..i + 1][..i] == s[..i];
      t := Insert(p, t, s[i]);
    }
    assert s[..|s|] == s;
    SortClasses(p, s);
    if Separated(p, versions) {
      SortSorts(p, versions, s);
    }
    if Sorted(p, s) {
      SortKeepsSorted(p, s);
    }
  }

  lemma InsertKeepsClasses(p: string, t: seq<ApiResource>, s: seq<ApiResource>, i: nat)
    requires i < |s| && forall v, n :: Class(t, v, n) == Class(s[..i], v, n)
    ensures forall v, n :: Class(Insert(p, t, s[i]), v, n) == Class(s[..i + 1], v, n)
  {
    assert s[..i + 1] == s[..i] + [s[i]];
    forall v, n
      ensures Class(Insert(p, t, s[i]), v, n) == Class(s[..i + 1], v, n)
    {
      InsertClass(p, t, s[i], v, n);
      ClassAppend(t, [s[i]], v, n);
      ClassAppend(s[..i], [s[i]], v, n);
      assert Class(t, v, n) == Class(s[..i], v, n);
    }
  }

  predicate NameIn(s: seq<ApiResource>, n: string) {
    exists i | 0 <= i < |s| :: s[i].name == n
  }

  /** First entry of each name wins. */
  function FirstWins(s: seq<ApiResource>): seq<ApiResource> {
    if s == [] then []
    else
      var init, last := s[..|s| - 1], s[|s| - 1];
      FirstWins(init) + if NameIn(init, last.name) then [] else [last]
  }

  /** The whole algorithm, given the order in which the map yields its versions. */
  function Normalized(g: GroupResources, order: seq<string>): seq<ApiResource>
    requires forall v | v in order :: v in g.versioned
  {
    FirstWins(SortedStably(g.preferred, Gathered(g, order)))
  }

  /** Every name from the best version that offers it, and no other result is possible. */
  ghost predicate Best(g: GroupResources, r: seq<ApiResource>) {
    && (forall x, w: string | x in r :: NotBeaten(g, x, w))
    && (exists s :: SortOf(g, s))
    && (forall s | SortOf(g, s) :: r == FirstWins(s))
  }

  lemma OutcomeMeans(g: GroupResources, order: seq<string>)
    requires OrderOf(order, g.versioned.Keys)
    ensures var r := Normalized(g, order);
      && Covers(g, r)
      && (Separated(g.preferred, g.versioned.Keys) ==> Best(g, r))
  {
    var all := Gathered(g, order);
    var s0 := SortedStably(g.preferred, all);
    GatheredClasses(g, order);
    SortClasses(g.preferred, all);
    assert GatheringOf(g, s0);
    FirstWinsCovers(g, s0);
    if Separated(g.preferred, g.versioned.Keys) {
      SortSorts(g.preferred, g.versioned.Keys, all);
      assert SortOf(g, s0);
      forall x, w: string | x in FirstWins(s0)
        ensures NotBeaten(g, x, w)
      {
        NormalizationChooses(g, s0, x, w);
      }
      forall s | SortOf(g, s)
        ensures FirstWins(s0) == FirstWins(s)
      {
        NormalizationDeterministic(g, s0, s);
      }
    }
  }

  /** Every offered name exactly once, each by the first entry of some version that offers it. When no
      versions tie that is the best version, and whatever the map order there is only this one result. */
  method NormalizeAPIGroupResources(g: GroupResources) returns (r: seq<ApiResource>, ghost order: seq<string>)
    ensures OrderOf(order, g.versioned.Keys) && r == Normalized(g, order)
    ensures Covers(g, r)
    ensures Separated(g.preferred, g.versioned.Keys) ==> Best(g, r)
  {
    var versionedResources;
    versionedResources, order := Gather(g);
    versionedResources := StableSort(g.preferred, versionedResources, g.versioned.Keys);
    r := PickFirsts(versionedResources);
    OutcomeMeans(g, order);
  }

  /** The last loop: a name that is registered already is skipped. */
  method PickFirsts(versionedResources: seq<ApiResource>) returns (r: seq<ApiResource>)
    ensures r == FirstWins(versionedResources)
  {
    var registered: map<string, bool> := map[];
    r := [];
    for i := 0 to |versionedResources|
      invariant forall n :: n in registered <==> NameIn(versionedResources[..i], n)
      invariant forall n | n in registered :: registered[n]
      invariant r == FirstWins(versionedResources[..i])
    {
      var vr := versionedResources[i];
      OneMore(versionedResources, i);
      if !(vr.name in registered && registered[vr.name]) {
        r := r + [vr];
        registered := registered[vr.name := true];
      }
    }
    assert versionedResources[..|versionedResources|] == versionedResources;
  }

  lemma OneMore(s: seq<ApiResource>, i: nat)
    requires i < |s|
    ensures forall n :: NameIn(s[..i + 1], n) <==> NameIn(s[..i], n) || s[i].name == n
    ensures FirstWins(s[..i + 1]) == FirstWins(s[..i]) + if NameIn(s[..i], s[i].name) then [] else [s[i]]
  {
    assert s[..i + 1] == s[..i] + [s[i]] && s[..i + 1][..i] == s[..i];
    forall n
      ensures NameIn(s[..i + 1], n) <==> NameIn(s[..i], n) || s[i].name == n
    {
      NameInAppend(s[..i], s[i], n);
    }
  }

  lemma NameInAppend(s: seq<ApiResource>, x: ApiResource, n: string)
    ensures NameIn(s + [x], n) <==> NameIn(s, n) || x.name == n
  {
    if NameIn(s, n) {
      var i :| 0 <= i < |s| && s[i].name == n;
      assert (s + [x])[i].name == n;
    }
    assert (s + [x])[|s|] == x;
    if NameIn(s + [x], n) && x.name != n {
      var i :| 0 <= i < |s + [x]| && (s + [x])[i].name == n;
      assert s[i].name == n;
    }
  }

  // ---------------------------------------------------------------- what the result is

  /** An entry is kept iff nothing before it has its name; kept names are unique and none is lost. */
  lemma {:induction false} FirstWinsKeepsFirsts(s: seq<ApiResource>)
    ensures Unique(FirstWins(s))
    ensures forall x | x in FirstWins(s) :: exists i :: FirstOfName(s, i) && s[i] == x
    ensures forall n :: NameIn(s, n) <==> NameIn(FirstWins(s), n)
  {
    if s != [] {
      var init, last := s[..|s| - 1], s[|s| - 1];
      FirstWinsKeepsFirsts(init);
      var r := FirstWins(init);
      assert s == init + [last];
      forall n
        ensures NameIn(s, n) <==> NameIn(FirstWins(s), n)
      {
        NameInAppend(init, last, n);
        NameInAppend(r, last, n);
        if NameIn(init, last.name) {
          assert FirstWins(s) == r;
        }
      }
      forall x | x in FirstWins(s)
        ensures exists i :: FirstOfName(s, i) && s[i] == x
      {
        if x in r {
          var i :| FirstOfName(init, i) && init[i] == x;
          assert FirstOfName(s, i) && s[i] == x;
        } else {
          assert x == last && !NameIn(init, last.name);
          assert FirstOfName(s, |s| - 1);
        }
      }
    }
  }

  ghost predicate FirstOfName(s: seq<ApiResource>, i: int) {
    0 <= i < |s| && forall k | 0 <= k < i :: s[k].name != s[i].name
  }

  lemma {:induction false} FirstOfNameHeadsClass(s: seq<ApiResource>, i: int)
    requires FirstOfName(s, i)
    ensures var c := Class(s, s[i].version, s[i].name); c != [] && c[0] == s[i]
  {
    if i > 0 {
      assert s[1..][i - 1] == s[i];
      assert FirstOfName(s[1..], i - 1);
      FirstOfNameHeadsClass(s[1..], i - 1);
      assert s[0].name != s[i].name;
    }
  }

  /** Each offered name once and no other, in the first entry under that name of a version that offers it. */
  ghost predicate Covers(g: GroupResources, r: seq<ApiResource>) {
    && Unique(r)
    && (forall n :: NameIn(r, n) <==> exists v :: Offered(g, v, n) != [])
    && (forall x | x in r :: Offered(g, x.version, x.name) != [] && Offered(g, x.version, x.name)[0] == x)
  }

  /** No other version that offers x's name comes before x's version. */
  ghost predicate NotBeaten(g: GroupResources, x: ApiResource, w: string) {
    Offered(g, w, x.name) != [] ==> w == x.version || Before(g.preferred, x.version, w)
  }

  lemma ClassGivesName(s: seq<ApiResource>, v: string, n: string)
    requires Class(s, v, n) != []
    ensures NameIn(s, n)
  {
    ClassMember(s, v, n, Class(s, v, n)[0]);
  }

  /** Covering needs no order at all: it holds however ties fall. */
  lemma FirstWinsCovers(g: GroupResources, s: seq<ApiResource>)
    requires GatheringOf(g, s)
    ensures Covers(g, FirstWins(s))
  {
    var r := FirstWins(s);
    FirstWinsKeepsFirsts(s);
    forall n
      ensures NameIn(r, n) <==> exists v :: Offered(g, v, n) != []
    {
      if NameIn(s, n) {
        var i :| 0 <= i < |s| && s[i].name == n;
        ClassMember(s, s[i].version, n, s[i]);
        assert Class(s, s[i].version, n) == Offered(g, s[i].version, n);
      }
      forall v | Offered(g, v, n) != []
        ensures NameIn(s, n)
      {
        assert Class(s, v, n) == Offered(g, v, n);
        ClassGivesName(s, v, n);
      }
    }
    forall x | x in r
      ensures Offered(g, x.version, x.name) != [] && Offered(g, x.version, x.name)[0] == x
    {
      var i :| FirstOfName(s, i) && s[i] == x;
      FirstOfNameHeadsClass(s, i);
      assert Class(s, x.version, x.name) == Offered(g, x.version, x.name);
    }
  }

  /** When no versions tie, each name is taken from the best version that offers it: the preferred one,
      else the highest. */
  lemma NormalizationChooses(g: GroupResources, s: seq<ApiResource>, x: ApiResource, w: string)
    requires SortOf(g, s) && Separated(g.preferred, g.versioned.Keys) && x in FirstWins(s)
    ensures NotBeaten(g, x, w)
  {
    FirstWinsKeepsFirsts(s);
    var i :| FirstOfName(s, i) && s[i] == x;
    FirstOfNameHeadsClass(s, i);
    assert Class(s, x.version, x.name) == Offered(g, x.version, x.name);
    if Offered(g, w, x.name) != [] && w != x.version {
      assert Class(s, w, x.name) == Offered(g, w, x.name);
      var y := Class(s, w, x.name)[0];
      ClassMember(s, w, x.name, y);
      var k :| 0 <= k < |s| && s[k] == y;
      assert i < k;
      assert x.version in g.versioned && w in g.versioned;
      LessTotal(g.preferred, g.versioned.Keys, x, y);
    }
  }

  /** When no versions tie, every map iteration order gives the same output - even with repeated names. */
  lemma NormalizationDeterministic(g: GroupResources, s: seq<ApiResource>, t: seq<ApiResource>)
    requires SortOf(g, s) && SortOf(g, t) && Separated(g.preferred, g.versioned.Keys)
    ensures FirstWins(s) == FirstWins(t)
  {
    forall y | y in s
      ensures y.version in g.versioned
    {
      ClassMember(s, y.version, y.name, y);
      assert Class(s, y.version, y.name) == Offered(g, y.version, y.name);
    }
    forall v, n
      ensures Class(s, v, n) == Class(t, v, n)
    {
      assert Class(s, v, n) == Offered(g, v, n) == Class(t, v, n);
    }
    SortedIsUnique(g.preferred, g.versioned.Keys, s, t);
  }

  /** The outcome does not depend on the order in which the map yields its versions. */
  ghost predicate OrderIndependent(g: GroupResources) {
    forall o: seq<string>, o': seq<string> | OrderOf(o, g.versioned.Keys) && OrderOf(o', g.versioned.Keys) ::
      Normalized(g, o) == Normalized(g, o')
  }

  /** A group of the given versions whose only resources are one under v and one of the same name under w. */
  function OneNameTwice(p: string, versions: set<string>, v: string, w: string): GroupResources {
    GroupResources("", p, map x | x in versions :: if x == v || x == w then [Lone(x)] else [])
  }

  function Lone(version: string): ApiResource {
    ApiResource("", "", false, "", version, "", [], [], [], NoHash)
  }

  lemma {:induction false} GatheredRest(g: GroupResources, order: seq<string>, rest: seq<string>)
    requires forall v | v in order :: v in g.versioned
    requires forall v | v in rest :: v in g.versioned && g.versioned[v] == []
    ensures Gathered(g, order + rest) == Gathered(g, order)
  {
    if rest == [] {
      assert order + rest == order;
    } else {
      var all := order + rest;
      assert all[..|all| - 1] == order + rest[..|rest| - 1] && all[|all| - 1] == rest[|rest| - 1];
      GatheredRest(g, order, rest[..|rest| - 1]);
    }
  }

  lemma GatheredTwo(g: GroupResources, v: string, w: string)
    requires v in g.versioned && w in g.versioned && g.group == ""
    requires g.versioned[v] == [Lone(v)] && g.versioned[w] == [Lone(w)]
    ensures Gathered(g, [v, w]) == [Lone(v), Lone(w)]
  {
    assert [v, w][..1] == [v] && [v][..0] == [];
    assert StampAll("", v, [Lone(v)]) == [Lone(v)] && StampAll("", w, [Lone(w)]) == [Lone(w)];
    assert Gathered(g, [v]) == Gathered(g, [v][..0]) + [Lone(v)];
  }

  lemma EnumerateSet(s: set<string>) returns (order: seq<string>)
    ensures OrderOf(order, s)
  {
    order := [];
    var todo := s;
    while todo != {}
      invariant todo <= s && OrderOf(order, s - todo)
      decreases |todo|
    {
      var v :| v in todo;
      order, todo := order + [v], todo - {v};
    }
  }

  /** The group offers one name under v and under w, and nothing else. */
  ghost predicate OneNameUnder(g: GroupResources, v: string, w: string) {
    && g.group == "" && v in g.versioned && w in g.versioned && v != w
    && g.versioned[v] == [Lone(v)] && g.versioned[w] == [Lone(w)]
    && forall x | x in g.versioned && x != v && x != w :: g.versioned[x] == []
  }

  /** With v first among two tied versions, the result is v's entry. */
  lemma FirstOfTie(g: GroupResources, v: string, w: string, rest: seq<string>)
    requires OneNameUnder(g, v, w) && v != g.preferred && w != g.preferred && Compare(w, v) == 0
    requires OrderOf(rest, g.versioned.Keys - {v, w})
    ensures OrderOf([v, w] + rest, g.versioned.Keys) && Normalized(g, [v, w] + rest) == [Lone(v)]
  {
    OrderWithRest(v, w, rest, g.versioned.Keys);
    GatheredRest(g, [v, w], rest);
    GatheredTwo(g, v, w);
    FirstOfTwo(g.preferred, v, w);
  }

  lemma OrderWithRest(v: string, w: string, rest: seq<string>, versions: set<string>)
    requires v in versions && w in versions && v != w && OrderOf(rest, versions - {v, w})
    ensures OrderOf([v, w] + rest, versions)
  {
    var o := [v, w] + rest;
    assert forall i | 2 <= i < |o| :: o[i] == rest[i - 2] && o[i] in rest;
    forall x
      ensures x in o <==> x in versions
    {
      assert x in o <==> x in [v, w] || x in rest;
    }
  }

  lemma FirstOfTwo(p: string, v: string, w: string)
    requires v != w && v != p && w != p && Compare(w, v) == 0
    ensures FirstWins(SortedStably(p, [Lone(v), Lone(w)])) == [Lone(v)]
  {
    var s := [Lone(v), Lone(w)];
    assert !Less(p, s[1], s[0]);
    SortKeepsSorted(p, s);
    TwoFirst(Lone(v), Lone(w));
  }

  /** Whenever two versions tie, a group with those versions, and possibly others, has an output that
      depends on the order in which the map yields them. */
  lemma TieDependsOnOrder(g: GroupResources, v: string, w: string)
    requires OneNameUnder(g, v, w) && v != g.preferred && w != g.preferred && Compare(v, w) == 0
    ensures !OrderIndependent(g)
  {
    CompareOpposite(v, w);
    CompareOpposite(w, v);
    var rest := EnumerateSet(g.versioned.Keys - {v, w});
    FirstOfTie(g, v, w, rest);
    assert {v, w} == {w, v};
    FirstOfTie(g, w, v, rest);
    assert [Lone(v)][0] != [Lone(w)][0];
    TwoOutcomes(g, [v, w] + rest, [w, v] + rest);
  }

  lemma TwoOutcomes(g: GroupResources, o: seq<string>, o': seq<string>)
    requires OrderOf(o, g.versioned.Keys) && OrderOf(o', g.versioned.Keys) && Normalized(g, o) != Normalized(g, o')
    ensures !OrderIndependent(g)
  {
  }

  lemma GatheredSorts(g: GroupResources, order: seq<string>)
    requires OrderOf(order, g.versioned.Keys) && Separated(g.preferred, g.versioned.Keys)
    ensures SortOf(g, SortedStably(g.preferred, Gathered(g, order)))
  {
    GatheredClasses(g, order);
    SortClasses(g.preferred, Gathered(g, order));
    SortSorts(g.preferred, g.versioned.Keys, Gathered(g, order));
  }

  /** Over all groups with given versions, the output is independent of the map order exactly when none tie. */
  lemma OrderIndependentExactly(p: string, versions: set<string>)
    ensures Separated(p, versions)
       <==> forall g: GroupResources | g.preferred == p && g.versioned.Keys == versions :: OrderIndependent(g)
  {
    if Separated(p, versions) {
      forall g: GroupResources, o, o' | g.preferred == p && g.versioned.Keys == versions
                                        && OrderOf(o, versions) && OrderOf(o', versions)
        ensures Normalized(g, o) == Normalized(g, o')
      {
        GatheredSorts(g, o);
        GatheredSorts(g, o');
        NormalizationDeterministic(g, SortedStably(p, Gathered(g, o)), SortedStably(p, Gathered(g, o')));
      }
    } else {
      var v, w :| v in versions && w in versions && v != w && v != p && w != p && Compare(v, w) == 0;
      var g := OneNameTwice(p, versions, v, w);
      assert g.versioned.Keys == versions && OneNameUnder(g, v, w);
      TieDependsOnOrder(g, v, w);
    }
  }

  lemma TwoFirst(a: ApiResource, b: ApiResource)
    requires a.name == b.name
    ensures FirstWins([a, b]) == [a]
  {
    var s := [a, b];
    assert s[..1] == [a] && s[1] == b;
    assert [a][0].name == b.name && NameIn([a], b.name);
    assert [a][..0] == [] && FirstWins([a]) == [a];
    assert FirstWins(s) == FirstWins(s[..1]);
  }

  /** For instance v1 and v01, which are different versions to the map but tie in the comparator. */
  lemma V1TiesV01()
    ensures "v1" != "v01" && Compare("v1", "v01") == 0
  {
    assert "v1"[1..] == "1" && "v01"[1..] == "01" && "01"[1..] == "1" && "1"[1..] == "";
    assert LeadingDigits("1") == "1" && LeadingDigits("01") == "01";
    assert "01"[..1] == "0" && "1"[..0] == "" && "0"[..0] == "";
    assert Value("0") == 0 && Value("1") == 1 && Value("01") == 1;
    assert Suffix("v1") == "" && Suffix("v01") == "";
  }
}
