/** Facts about finite sequences shared by the storage and the parser models. */
module Sequences {

  /** Length of the longest prefix of `s` whose characters all satisfy `p`. */
  function Span(p: char -> bool, s: string): (n: nat)
    ensures n <= |s|
  {
    if s == "" || !p(s[0]) then 0 else 1 + Span(p, s[1..])
  }

  /** A span holds only `p` characters and stops at one that is not. */
  lemma {:induction false} SpanIsMaximal(p: char -> bool, s: string)
    ensures All(p, s[..Span(p, s)])
    ensures Span(p, s) < |s| ==> !p(s[Span(p, s)])
  {
    if s != "" && p(s[0]) {
      SpanIsMaximal(p, s[1..]);
      var n := Span(p, s[1..]);
      assert s[..n + 1] == [s[0]] + s[1..][..n];
    }
  }

  predicate All(p: char -> bool, s: string) {
    forall i | 0 <= i < |s| :: p(s[i])
  }

  /** A run of `p` characters followed by something that is not one is a span. */
  lemma {:induction false} SpanOfRun(p: char -> bool, run: string, rest: string)
    requires All(p, run)
    requires rest == "" || !p(rest[0])
    ensures Span(p, run + rest) == |run|
    ensures (run + rest)[..|run|] == run && (run + rest)[|run|..] == rest
  {
    if run == "" {
      assert run + rest == rest;
    } else {
      assert (run + rest)[1..] == run[1..] + rest;
      SpanOfRun(p, run[1..], rest);
    }
  }

  /** Index of the first element satisfying `p`, or -1. */
  function FirstWhere<T>(p: T -> bool, s: seq<T>): (r: int)
    ensures -1 <= r < |s|
    ensures r >= 0 ==> p(s[r])
  {
    if s == [] then -1
    else
      var r := FirstWhere(p, s[..|s| - 1]);
      if r >= 0 then r else if p(s[|s| - 1]) then |s| - 1 else -1
  }

  /** FirstWhere is the first: no earlier element satisfies `p`, and none at all
      does when it is -1. */
  lemma {:induction false} FirstWhereIsFirst<T>(p: T -> bool, s: seq<T>, i: nat)
    requires i < |s| && (i < FirstWhere(p, s) || FirstWhere(p, s) == -1)
    ensures !p(s[i])
  {
    if i < |s| - 1 {
      FirstWhereIsFirst(p, s[..|s| - 1], i);
    }
  }

  /** An index with no satisfying element before it, itself satisfying or the
      end of the sequence, is what FirstWhere finds. */
  lemma {:induction false} FirstWhereFound<T>(p: T -> bool, s: seq<T>, r: nat)
    requires r <= |s| && forall i | 0 <= i < r :: !p(s[i])
    requires r < |s| ==> p(s[r])
    ensures FirstWhere(p, s) == if r < |s| then r else -1
  {
    if s != [] {
      FirstWhereFound(p, s[..|s| - 1], if r < |s| then r else |s| - 1);
    }
  }

  /** The first element decides, or the search goes on behind it. */
  lemma {:induction false} FirstWhereCons<T>(p: T -> bool, s: seq<T>)
    requires s != []
    ensures var r := FirstWhere(p, s[1..]);
            FirstWhere(p, s) == if p(s[0]) then 0 else if r < 0 then -1 else r + 1
  {
    var r := FirstWhere(p, s[1..]);
    var found := if p(s[0]) then 0 else if r < 0 then |s| else r + 1;
    forall i | 0 <= i < found
      ensures !p(s[i])
    {
      if i > 0 {
        FirstWhereIsFirst(p, s[1..], i - 1);
      }
    }
    FirstWhereFound(p, s, found);
  }

  /** Index of the last element satisfying `p`, or -1. */
  function LastWhere<T>(p: T -> bool, s: seq<T>): (r: int)
    ensures -1 <= r < |s|
    ensures r >= 0 ==> p(s[r])
  {
    if s == [] then -1
    else if p(s[|s| - 1]) then |s| - 1
    else LastWhere(p, s[..|s| - 1])
  }

  lemma {:induction false} LastWhereIsLast<T>(p: T -> bool, s: seq<T>, i: nat)
    requires i < |s| && LastWhere(p, s) < i
    ensures !p(s[i])
  {
    if i < |s| - 1 && !p(s[|s| - 1]) {
      LastWhereIsLast(p, s[..|s| - 1], i);
    }
  }

  function Not<T>(p: T -> bool): T -> bool {
    x => !p(x)
  }

  /** The elements of `s` satisfying `p`, in their original order. */
  function Filter<T>(p: T -> bool, s: seq<T>): (r: seq<T>)
    ensures |r| <= |s|
  {
    if s == [] then []
    else
      var r := Filter(p, s[..|s| - 1]);
      if p(s[|s| - 1]) then r + [s[|s| - 1]] else r
  }

  lemma {:induction false} FilterMembers<T(!new)>(p: T -> bool, s: seq<T>)
    ensures forall x :: x in Filter(p, s) <==> x in s && p(x)
  {
    if s != [] {
      FilterMembers(p, s[..|s| - 1]);
      assert s == s[..|s| - 1] + [s[|s| - 1]];
    }
  }

  lemma {:induction false} FilterSplit<T>(p: T -> bool, s: seq<T>, t: seq<T>)
    ensures Filter(p, s + t) == Filter(p, s) + Filter(p, t)
  {
    if t == [] {
      assert s + t == s;
    } else {
      assert (s + t)[..|s + t| - 1] == s + t[..|t| - 1];
      FilterSplit(p, s, t[..|t| - 1]);
    }
  }

  /** Filtering a sequence by `p` and by its negation splits it as a multiset. */
  lemma {:induction false} FilterPartition<T>(p: T -> bool, s: seq<T>)
    ensures multiset(Filter(p, s)) + multiset(Filter(Not(p), s)) == multiset(s)
  {
    if s == [] {
    } else {
      FilterPartition(p, s[..|s| - 1]);
      assert s == s[..|s| - 1] + [s[|s| - 1]];
    }
  }

  /** Nothing passes a filter when nothing satisfies it, everything when all do. */
  lemma {:induction false} FilterExtremes<T>(p: T -> bool, s: seq<T>)
    ensures (forall x | x in s :: p(x)) ==> Filter(p, s) == s
    ensures (forall x | x in s :: !p(x)) ==> Filter(p, s) == []
  {
    if s == [] {
    } else {
      FilterExtremes(p, s[..|s| - 1]);
      assert s == s[..|s| - 1] + [s[|s| - 1]];
    }
  }

  lemma {:induction false} FilterNone<T>(p: T -> bool, s: seq<T>)
    requires forall i | 0 <= i < |s| :: !p(s[i])
    ensures Filter(p, s) == []
  {
    FilterExtremes(p, s);
  }

  /** Element `i`, if it passes, sits in the filtered sequence right after the
      elements before `i` that pass. */
  lemma {:induction false} FilterPosition<T>(p: T -> bool, s: seq<T>, i: nat)
    requires i < |s| && p(s[i])
    ensures |Filter(p, s[..i])| < |Filter(p, s)|
    ensures Filter(p, s)[|Filter(p, s[..i])|] == s[i]
  {
    assert s == s[..i] + ([s[i]] + s[i + 1..]);
    FilterSplit(p, s[..i], [s[i]] + s[i + 1..]);
    FilterSplit(p, [s[i]], s[i + 1..]);
    assert Filter(p, [s[i]]) == [s[i]];
  }

  /** Every position of the filtered sequence comes from exactly such an element. */
  lemma {:induction false} FilterOrigin<T>(p: T -> bool, s: seq<T>, j: nat) returns (i: nat)
    requires j < |Filter(p, s)|
    ensures i < |s| && p(s[i]) && |Filter(p, s[..i])| == j && Filter(p, s)[j] == s[i]
  {
    var n := |s| - 1;
    if j < |Filter(p, s[..n])| {
      i := FilterOrigin(p, s[..n], j);
      assert s[..n][..i] == s[..i];
    } else {
      i := n;
    }
  }

  // ------------------------------------------------- taking one element out

  /** `s` without element i. */
  function Remove<T>(s: seq<T>, i: nat): (r: seq<T>)
    requires i < |s|
    ensures |r| == |s| - 1
    ensures forall k | 0 <= k < |r| :: r[k] == s[if k < i then k else k + 1]
  {
    s[..i] + s[i + 1..]
  }

  /** A loop that closes the gap at `at` by shifting has come to slot j. */
  ghost predicate Shifted<T>(was: seq<T>, now: seq<T>, at: nat, j: int) {
    && at <= j < |was| == |now|
    && (forall k | 0 <= k < j :: now[k] == was[if k < at then k else k + 1])
    && (forall k | j < k < |was| :: now[k] == was[k])
  }

  lemma {:induction false} ShiftStarts<T>(s: seq<T>, at: nat)
    requires at < |s|
    ensures Shifted(s, s, at, at)
  {
  }

  lemma {:induction false} ShiftStep<T>(was: seq<T>, now: seq<T>, at: nat, j: nat)
    requires Shifted(was, now, at, j) && j + 1 < |was|
    ensures Shifted(was, now[j := now[j + 1]], at, j + 1)
  {
  }

  lemma {:induction false} ShiftEnds<T>(was: seq<T>, now: seq<T>, at: nat)
    requires Shifted(was, now, at, |was| - 1)
    ensures now[..|now| - 1] == Remove(was, at)
  {
    var short := now[..|now| - 1];
    forall k | 0 <= k < |short|
      ensures short[k] == Remove(was, at)[k]
    {
    }
  }
}
