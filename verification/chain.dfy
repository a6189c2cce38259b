/** The wildcard chain of a dotted node: the ordered candidate list the
    handler probes, most specific first. For `plots.admin.destroy.other` it
    is `plots.admin.destroy.other`, `plots.admin.destroy.*`, `plots.admin.*`,
    `plots.*`, `*`.

    `BuildChain` follows the handler's construction step by step (a forward
    list of candidates, reversed, with the root wildcard and the global
    wildcard appended); `ChainEntry` states each position directly, and
    `ChainShape` proves the two agree. */
module Chain {
  import opened Nodes

  const Wildcard: string := "*"
  const WildcardSuffix: string := ".*"

  /** The string the handler's inner loop accumulates from the first `i`
      segments: every segment followed by a separator. */
  function DottedPrefix(parts: seq<string>, i: nat): (prefix: string)
    requires i <= |parts|
  {
    if i == 0 then "" else DottedPrefix(parts, i - 1) + parts[i - 1] + [Separator]
  }

  /** The candidate the handler records for segment position `i >= 1`: the
      accumulated prefix and segment `i`, with the wildcard suffix unless `i`
      is the last position. */
  function Candidate(parts: seq<string>, i: nat): (c: string)
    requires 1 <= i < |parts|
  {
    var prefix := DottedPrefix(parts, i);
    if i == |parts| - 1 then prefix + parts[i] else prefix + parts[i] + WildcardSuffix
  }

  /** The candidates for positions 1 .. n-1, in the order the handler
      appends them. */
  function Ascending(parts: seq<string>, n: nat): (r: seq<string>)
    requires n <= |parts|
    ensures |r| == if n == 0 then 0 else n - 1
    ensures forall j :: 0 <= j < |r| ==> r[j] == Candidate(parts, j + 1)
  {
    if n <= 1 then [] else Ascending(parts, n - 1) + [Candidate(parts, n - 1)]
  }

  function Reverse<T>(s: seq<T>): (r: seq<T>)
    ensures |r| == |s|
    ensures forall i :: 0 <= i < |s| ==> r[i] == s[|s| - 1 - i]
  {
    if s == [] then [] else Reverse(s[1..]) + [s[0]]
  }

  /** The candidate chain of a segment list, built as the handler builds it. */
  function BuildChain(parts: seq<string>): (chain: seq<string>)
    requires |parts| >= 1
    ensures |chain| == |parts| + 1
    ensures chain[|parts| - 1] == parts[0] + WildcardSuffix
    ensures chain[|parts|] == Wildcard
  {
    Reverse(Ascending(parts, |parts|)) + [parts[0] + WildcardSuffix, Wildcard]
  }

  /** Reference definition of position `j` of the chain of a node with
      `k = |parts| >= 2` segments: the node itself at 0, the wildcard of its
      ancestor of depth `k - j` for `0 < j < k`, the global wildcard at `k`. */
  function ChainEntry(parts: seq<string>, j: nat): (entry: string)
    requires |parts| >= 2 && j <= |parts|
  {
    if j == 0 then Join(parts)
    else if j < |parts| then JoinUpTo(parts, |parts| - j) + WildcardSuffix
    else Wildcard
  }

  /** The handler's accumulated prefix followed by the next segment is the
      ancestor one level deeper. */
  lemma {:induction false} DottedPrefixJoin(parts: seq<string>, i: nat)
    requires i < |parts|
    ensures DottedPrefix(parts, i) + parts[i] == JoinUpTo(parts, i + 1)
    decreases i
  {
    if i > 0 {
      DottedPrefixJoin(parts, i - 1);
    }
  }

  /** The positions of the built chain: the reversed forward list, then the
      root wildcard, then `*`. */
  lemma BuildChainAt(parts: seq<string>, j: nat)
    requires 1 <= |parts| && j <= |parts|
    ensures |BuildChain(parts)| == |parts| + 1
    ensures j < |parts| - 1 ==> BuildChain(parts)[j] == Candidate(parts, |parts| - 1 - j)
    ensures j == |parts| - 1 ==> BuildChain(parts)[j] == parts[0] + WildcardSuffix
    ensures j == |parts| ==> BuildChain(parts)[j] == Wildcard
  {
  }

  /** The candidate recorded for position `i` is the ancestor of depth
      `i + 1`, as a wildcard unless it is the whole node. */
  lemma CandidateIsAncestor(parts: seq<string>, i: nat)
    requires 1 <= i < |parts|
    ensures i == |parts| - 1 ==> Candidate(parts, i) == JoinUpTo(parts, i + 1)
    ensures i < |parts| - 1 ==> Candidate(parts, i) == JoinUpTo(parts, i + 1) + WildcardSuffix
  {
    DottedPrefixJoin(parts, i);
  }

  /** Position `j` of the built chain is the entry `ChainEntry` describes. */
  lemma ChainAt(parts: seq<string>, j: nat)
    requires |parts| >= 2 && j <= |parts|
    ensures |BuildChain(parts)| == |parts| + 1
    ensures BuildChain(parts)[j] == ChainEntry(parts, j)
  {
    BuildChainAt(parts, j);
    if j < |parts| - 1 {
      CandidateIsAncestor(parts, |parts| - 1 - j);
    }
  }

  /** The chain has one entry per segment plus the global wildcard, and each
      entry is the one `ChainEntry` describes. */
  lemma ChainShape(parts: seq<string>)
    requires |parts| >= 2
    ensures |BuildChain(parts)| == |parts| + 1
    ensures forall j :: 0 <= j <= |parts| ==> BuildChain(parts)[j] == ChainEntry(parts, j)
  {
    forall j | 0 <= j <= |parts|
      ensures BuildChain(parts)[j] == ChainEntry(parts, j)
    {
      ChainAt(parts, j);
    }
  }

  /** The candidates of a four-segment node `a.b.c.d`, in the order the
      handler's loop records them. */
  lemma FourSegmentCandidates(parts: seq<string>)
    requires |parts| == 4
    ensures Candidate(parts, 1) == parts[0] + "." + parts[1] + ".*"
    ensures Candidate(parts, 2) == parts[0] + "." + parts[1] + "." + parts[2] + ".*"
    ensures Candidate(parts, 3) == parts[0] + "." + parts[1] + "." + parts[2] + "." + parts[3]
  {
    CandidateIsAncestor(parts, 1);
    CandidateIsAncestor(parts, 2);
    CandidateIsAncestor(parts, 3);
    assert JoinUpTo(parts, 2) == parts[0] + "." + parts[1];
    assert JoinUpTo(parts, 3) == parts[0] + "." + parts[1] + "." + parts[2];
  }

  /** Two sequences of five elements that agree position by position are
      equal. */
  lemma SameFive<T>(s: seq<T>, t: seq<T>)
    requires |s| == 5 && |t| == 5
    requires s[0] == t[0] && s[1] == t[1] && s[2] == t[2] && s[3] == t[3] && s[4] == t[4]
    ensures s == t
  {
    assert forall i :: 0 <= i < 5 ==> s[i] == t[i];
  }

  /** The first three positions of the chain of a four-segment node. */
  lemma FourSegmentPositions(parts: seq<string>)
    requires |parts| == 4
    ensures BuildChain(parts)[0] == parts[0] + "." + parts[1] + "." + parts[2] + "." + parts[3]
    ensures BuildChain(parts)[1] == parts[0] + "." + parts[1] + "." + parts[2] + ".*"
    ensures BuildChain(parts)[2] == parts[0] + "." + parts[1] + ".*"
  {
    FourSegmentCandidates(parts);
    BuildChainAt(parts, 0);
    BuildChainAt(parts, 1);
    BuildChainAt(parts, 2);
  }

  /** The chain of any four-segment node `a.b.c.d`. */
  lemma FourSegmentChain(parts: seq<string>)
    requires |parts| == 4
    ensures var a, b, c, d := parts[0], parts[1], parts[2], parts[3];
      BuildChain(parts) == [a + "." + b + "." + c + "." + d, a + "." + b + "." + c + ".*", a + "." + b + ".*", a + ".*", "*"]
  {
    var a, b, c, d := parts[0], parts[1], parts[2], parts[3];
    FourSegmentPositions(parts);
    SameFive(BuildChain(parts), [a + "." + b + "." + c + "." + d, a + "." + b + "." + c + ".*", a + "." + b + ".*", a + ".*", "*"]);
  }

  /** A wildcard on an ancestor whose separator-terminated form is a prefix
      of `node` covers `node`. */
  lemma WildcardOfPrefix(ancestor: string, node: string, e: string)
    requires e == ancestor + WildcardSuffix
    requires ancestor + [Separator] <= node
    ensures |e| >= 2 && e[|e| - 1] == '*' && e[|e| - 2] == Separator
    ensures e[..|e| - 1] <= node
  {
    assert e[..|e| - 1] == ancestor + [Separator];
  }

  /** Every wildcard entry strictly between the node and `*` covers the
      node: it ends in `.*`, and what comes before the `*` is a prefix of the
      node. */
  lemma WildcardCoversNode(parts: seq<string>, j: nat)
    requires |parts| >= 2 && 0 < j < |parts|
    ensures var e := BuildChain(parts)[j];
      && |e| >= 2 && e[|e| - 1] == '*' && e[|e| - 2] == Separator
      && e[..|e| - 1] <= Join(parts)
  {
    var k := |parts|;
    ChainAt(parts, j);
    AncestorIsPrefix(parts, k - j, k);
    WildcardOfPrefix(JoinUpTo(parts, k - j), Join(parts), BuildChain(parts)[j]);
  }

  /** The chain of `plots.admin.destroy.other`, most specific first. The
      handler's debug printer lists the same candidates, without `*`, in the
      opposite order. */
  lemma ExampleChain(parts: seq<string>)
    requires parts == ["plots", "admin", "destroy", "other"]
    ensures BuildChain(parts)
         == ["plots.admin.destroy.other", "plots.admin.destroy.*", "plots.admin.*", "plots.*", "*"]
  {
    FourSegmentChain(parts);
    assert "plots" + "." + "admin" == "plots.admin";
    assert "plots.admin" + "." + "destroy" == "plots.admin.destroy";
    assert "plots.admin.destroy" + "." + "other" == "plots.admin.destroy.other";
    assert "plots.admin.destroy" + ".*" == "plots.admin.destroy.*";
    assert "plots.admin" + ".*" == "plots.admin.*";
    assert "plots" + ".*" == "plots.*";
  }
}
