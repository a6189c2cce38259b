/** Permission nodes as dotted strings, e.g. `plots.admin.destroy.other`, and
    their segments. `Split` is a plain split that keeps empty segments; on a
    node whose segments are all non-empty it agrees with the `String.split`
    the handler uses. */
module Nodes {

  const Separator: char := '.'

  /** The segments of `s` between its separators, left to right. */
  function Split(s: string): (parts: seq<string>)
    ensures |parts| >= 1
    ensures forall i :: 0 <= i < |parts| ==> Separator !in parts[i]
    ensures Separator in s <==> |parts| >= 2
    decreases |s|
  {
    if s == [] then [""]
    else
      var rest := Split(s[1..]);
      assert s == [s[0]] + s[1..];
      if s[0] == Separator then [""] + rest
      else [[s[0]] + rest[0]] + rest[1..]
  }

  /** The first `n` segments glued together with a separator between
      neighbours: the ancestor of depth `n`. */
  function JoinUpTo(parts: seq<string>, n: nat): (joined: string)
    requires 1 <= n <= |parts|
  {
    if n == 1 then parts[0] else JoinUpTo(parts, n - 1) + [Separator] + parts[n - 1]
  }

  /** All segments glued back together. */
  function Join(parts: seq<string>): (joined: string)
    requires |parts| >= 1
  {
    JoinUpTo(parts, |parts|)
  }

  predicate NoEmptySegments(parts: seq<string>)
  {
    forall i :: 0 <= i < |parts| ==> parts[i] != ""
  }

  /** A node without leading, trailing or doubled separators. */
  predicate WellFormed(node: string)
  {
    NoEmptySegments(Split(node))
  }

  /** Joining a list that starts with `a` is `a`, a separator, and the join
      of the rest. */
  lemma {:induction false} JoinCons(a: string, rest: seq<string>, n: nat)
    requires 1 <= n <= |rest|
    ensures JoinUpTo([a] + rest, n + 1) == a + [Separator] + JoinUpTo(rest, n)
    decreases n
  {
    var parts := [a] + rest;
    if n > 1 {
      JoinCons(a, rest, n - 1);
      assert parts[n] == rest[n - 1];
    }
  }

  /** Joining at least two segments is the first, a separator, and the
      join of the others. */
  lemma JoinFront(parts: seq<string>)
    requires |parts| >= 2
    ensures Join(parts) == parts[0] + [Separator] + Join(parts[1..])
  {
    assert parts == [parts[0]] + parts[1..];
    JoinCons(parts[0], parts[1..], |parts| - 1);
  }

  /** The split of a non-empty string, in terms of the split of its tail. */
  lemma SplitStep(s: string)
    requires s != []
    ensures s[0] == Separator ==> Split(s) == [""] + Split(s[1..])
    ensures s[0] != Separator ==>
      Split(s) == [[s[0]] + Split(s[1..])[0]] + Split(s[1..])[1..]
  {
  }

  /** Putting a character in front of a string is joining the segments with
      that character in front: as a segment of its own if it is the
      separator, glued to the first segment otherwise. */
  lemma JoinConsChar(c: char, tail: string, rest: seq<string>, parts: seq<string>)
    requires |rest| >= 1 && Join(rest) == tail
    requires c == Separator ==> parts == [""] + rest
    requires c != Separator ==> parts == [[c] + rest[0]] + rest[1..]
    ensures Join(parts) == [c] + tail
  {
    if c == Separator {
      assert parts[1..] == rest;
      JoinFront(parts);
    } else if |rest| > 1 {
      assert parts[1..] == rest[1..];
      JoinFront(parts);
      JoinFront(rest);
    }
  }

  /** Joining the segments of any string gives the string back. */
  lemma {:induction false} JoinSplit(s: string)
    ensures Join(Split(s)) == s
    decreases |s|
  {
    if s != [] {
      JoinSplit(s[1..]);
      SplitStep(s);
      JoinConsChar(s[0], s[1..], Split(s[1..]), Split(s));
      assert [s[0]] + s[1..] == s;
    }
  }

  /** A separator-free prefix followed by a separator splits off as one segment. */
  lemma {:induction false} SplitAfterSegment(a: string, t: string)
    requires Separator !in a
    ensures Split(a + [Separator] + t) == [a] + Split(t)
    decreases |a|
  {
    if a == [] {
      assert a + [Separator] + t == [Separator] + t;
      assert ([Separator] + t)[1..] == t;
    } else {
      var s := a + [Separator] + t;
      assert s[1..] == a[1..] + [Separator] + t;
      assert Separator !in a[1..] by {
        assert forall c :: c in a[1..] ==> c in a;
      }
      SplitAfterSegment(a[1..], t);
      assert [s[0]] + a[1..] == a;
    }
  }

  /** A separator-free string is a single segment. */
  lemma {:induction false} SplitSegment(a: string)
    requires Separator !in a
    ensures Split(a) == [a]
    decreases |a|
  {
    if a != [] {
      assert Separator !in a[1..] by {
        assert forall c :: c in a[1..] ==> c in a;
      }
      SplitSegment(a[1..]);
      assert [a[0]] + a[1..] == a;
    }
  }

  /** Splitting a joined segment list gives the segments back. */
  lemma {:induction false} SplitJoin(parts: seq<string>)
    requires |parts| >= 1
    requires forall i :: 0 <= i < |parts| ==> Separator !in parts[i]
    ensures Split(Join(parts)) == parts
    decreases |parts|
  {
    if |parts| == 1 {
      SplitSegment(parts[0]);
    } else {
      var head, tail := parts[0], parts[1..];
      assert parts == [head] + tail;
      assert forall i :: 0 <= i < |tail| ==> Separator !in tail[i] by {
        forall i | 0 <= i < |tail| ensures Separator !in tail[i] {
          assert tail[i] == parts[i + 1];
        }
      }
      SplitJoin(tail);
      JoinFront(parts);
      SplitAfterSegment(head, Join(tail));
    }
  }

  /** A node that starts with a separator, `.` and `..` among them, has an
      empty first segment. */
  lemma LeadingSeparatorNotWellFormed(s: string)
    requires s != [] && s[0] == Separator
    ensures Split(s)[0] == ""
    ensures !WellFormed(s)
  {
    SplitStep(s);
  }

  /** A shallower ancestor followed by a separator is a prefix of a deeper
      one. */
  lemma {:induction false} AncestorIsPrefix(parts: seq<string>, m: nat, n: nat)
    requires 1 <= m < n <= |parts|
    ensures JoinUpTo(parts, m) + [Separator] <= JoinUpTo(parts, n)
    decreases n
  {
    if m < n - 1 {
      AncestorIsPrefix(parts, m, n - 1);
    }
  }
}
