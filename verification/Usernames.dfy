/**
 Service-account usernames: the parser behind every request, and the printer
 that the business-authorization script uses to name the accounts.
 */
module Usernames {
  import opened Strings

  const PREFIX := "system:serviceaccount:external-crd-system:biz-"
  const DELIMITER_LENGTH := 5

  /** A slice expression outside its string panics in the source; that is `OutOfRange`. */
  datatype Parse =
    | Parsed(cluster: string, namespace: string)
    | Rejected
    | OutOfRange

  function GetClusterNamespace(username: string): Parse {
    if |username| == 0 || !(PREFIX <= username) then Rejected
    else
      var first := |PREFIX|;
      if |username| < first + DELIMITER_LENGTH then OutOfRange
      else
        var delimiter := username[first..first + DELIMITER_LENGTH];
        var last := LastIndex(username, delimiter);
        if last == first then Rejected
        else
          var clusterStart, clusterEnd := first + |delimiter|, last - 1;
          if clusterEnd < clusterStart then OutOfRange
          else
            assert OccursAt(username, delimiter, first);
            Parsed(username[clusterStart..clusterEnd], username[clusterEnd + 1 + |delimiter|..])
  }

  /** biz-${RANDOM}-${CLUSTER}-${RANDOM}-${NAMESPACE}, as the API server reports it. */
  function PrintUsername(random: string, cluster: string, namespace: string): string {
    PREFIX + random + "-" + cluster + "-" + random + "-" + namespace
  }

  /** `u` is prefix, delimiter, cluster, one character, the LAST delimiter, namespace. */
  ghost predicate SplitsAs(u: string, d: string, cluster: string, x: char, namespace: string) {
    && |d| == DELIMITER_LENGTH
    && u == PREFIX + d + cluster + [x] + d + namespace
    && LastIndex(u, d) == |PREFIX| + |d| + |cluster| + 1
  }

  lemma SplitIsParsed(u: string, d: string, cluster: string, x: char, namespace: string)
    requires SplitsAs(u, d, cluster, x, namespace)
    ensures GetClusterNamespace(u) == Parsed(cluster, namespace)
  {
    var first := |PREFIX|;
    assert u[..first] == PREFIX;
    assert u[first..first + |d|] == d;
    var last := LastIndex(u, d);
    assert u[first + |d|..last - 1] == cluster;
    assert u[last + |d|..] == namespace;
  }

  lemma ParsedIsSplit(u: string) returns (d: string, x: char)
    requires GetClusterNamespace(u).Parsed?
    ensures var p := GetClusterNamespace(u); SplitsAs(u, d, p.cluster, x, p.namespace)
  {
    var first := |PREFIX|;
    d := u[first..first + DELIMITER_LENGTH];
    assert OccursAt(u, d, first);
    var last := LastIndex(u, d);
    x := u[last - 1];
    var p := GetClusterNamespace(u);
    Cut(u, first, first + |d|, last - 1, last);
  }

  lemma Cut(u: string, a: nat, b: nat, c: nat, e: nat)
    requires a <= b <= c < e == c + 1 && e + (b - a) <= |u| && u[e..e + (b - a)] == u[a..b]
    ensures u == u[..a] + u[a..b] + u[b..c] + [u[c]] + u[a..b] + u[e + (b - a)..]
  {
  }

  /** The parse succeeds with (cluster, namespace) exactly on the usernames that split that way. */
  lemma ParseExactly(u: string, cluster: string, namespace: string)
    ensures GetClusterNamespace(u) == Parsed(cluster, namespace)
       <==> exists d: string, x: char :: SplitsAs(u, d, cluster, x, namespace)
  {
    if GetClusterNamespace(u) == Parsed(cluster, namespace) {
      var d, x := ParsedIsSplit(u);
    }
    forall d: string, x: char | SplitsAs(u, d, cluster, x, namespace)
      ensures GetClusterNamespace(u) == Parsed(cluster, namespace)
    {
      SplitIsParsed(u, d, cluster, x, namespace);
    }
  }

  /** In a printed username the delimiter R- has no occurrence that overlaps another one. */
  lemma NoOverlap(s: string, random: string, i: int, j: int)
    requires |random| + 1 == DELIMITER_LENGTH && Free(random, '-')
    requires OccursAt(s, random + "-", i) && OccursAt(s, random + "-", j) && i < j
    ensures i + DELIMITER_LENGTH <= j
  {
    // Position i + 4 holds the dash; a dash inside an overlapping copy would sit within `random`.
    assert s[i + |random|] == s[i..i + DELIMITER_LENGTH][|random|];
    if j < i + DELIMITER_LENGTH {
      assert false;
    }
  }

  lemma PrintedPieces(random: string, cluster: string, namespace: string)
    requires |random| + 1 == DELIMITER_LENGTH
    ensures var u, d, second :=
              PrintUsername(random, cluster, namespace), random + "-", |PREFIX| + DELIMITER_LENGTH + |cluster| + 1;
            && u == PREFIX + d + cluster + "-" + d + namespace
            && OccursAt(u, d, |PREFIX|) && OccursAt(u, d, second)
            && u[second + |d|..] == namespace
            && |u| == second + |d| + |namespace|
  {
    var u, d := PrintUsername(random, cluster, namespace), random + "-";
    assert u == PREFIX + d + cluster + "-" + d + namespace;
    var second := |PREFIX| + |d| + |cluster| + 1;
    assert u[second..second + |d|] == d;
    assert u[|PREFIX|..|PREFIX| + |d|] == d;
  }

  lemma OccursInTail(u: string, start: nat, d: string, i: nat)
    requires start <= |u|
    ensures OccursAt(u[start..], d, i) <==> OccursAt(u, d, start + i)
  {
    if start + i + |d| <= |u| {
      assert u[start..][i..i + |d|] == u[start + i..start + i + |d|];
    }
  }

  /**
   The parser undoes the printer for every cluster (even one that contains R-), exactly
   when the namespace does not itself contain the delimiter R-.
   */
  lemma ParseUndoesPrint(random: string, cluster: string, namespace: string)
    requires |random| + 1 == DELIMITER_LENGTH && Free(random, '-')
    ensures GetClusterNamespace(PrintUsername(random, cluster, namespace)) == Parsed(cluster, namespace)
       <==> !Contains(namespace, random + "-")
  {
    var u, d := PrintUsername(random, cluster, namespace), random + "-";
    var second := |PREFIX| + |d| + |cluster| + 1;
    PrintedPieces(random, cluster, namespace);
    var last := LastIndex(u, d);
    assert second <= last;
    if last == second {
      forall i | 0 <= i <= |namespace|
        ensures !OccursAt(namespace, d, i)
      {
        OccursInTail(u, second + |d|, d, i);
      }
      assert SplitsAs(u, d, cluster, '-', namespace);
      SplitIsParsed(u, d, cluster, '-', namespace);
    } else {
      NoOverlap(u, random, second, last);
      var i := last - (second + |d|);
      OccursInTail(u, second + |d|, d, i);
      assert OccursAt(namespace, d, i);
      assert u[|PREFIX|..|PREFIX| + |d|] == d;
      assert |u[last + |d|..]| < |namespace|;
    }
  }

  /** The slice expressions leave their string exactly when the username is cut short after the
      prefix, or when the last delimiter starts less than six characters after the first one. */
  lemma OutOfRangeExactly(u: string)
    ensures GetClusterNamespace(u) == OutOfRange
       <==> && PREFIX <= u
            && (|u| < |PREFIX| + DELIMITER_LENGTH
                || (var last := LastIndex(u, u[|PREFIX|..|PREFIX| + DELIMITER_LENGTH]);
                    |PREFIX| < last <= |PREFIX| + DELIMITER_LENGTH))
  {
    if PREFIX <= u && |u| >= |PREFIX| + DELIMITER_LENGTH {
      assert OccursAt(u, u[|PREFIX|..|PREFIX| + DELIMITER_LENGTH], |PREFIX|);
    }
  }
}
