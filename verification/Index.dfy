/** The primary key index: a sorted array of entries searched by bisection. */
module PrimaryIndex {
  import opened Sequences

  datatype Entry = Entry(key: int, rowId: int)

  ghost predicate Sorted(es: seq<Entry>) {
    forall i, j | 0 <= i < j < |es| :: es[i].key < es[j].key
  }

  /** The finite map a list of entries stands for. */
  ghost function AsMap(es: seq<Entry>): map<int, int> {
    if es == [] then map[]
    else AsMap(es[..|es| - 1])[es[|es| - 1].key := es[|es| - 1].rowId]
  }

  lemma {:induction false} AsMapConcat(a: seq<Entry>, b: seq<Entry>)
    ensures AsMap(a + b) == AsMap(a) + AsMap(b)
  {
    if b == [] {
      assert a + b == a;
    } else {
      assert (a + b)[..|a + b| - 1] == a + b[..|b| - 1];
      AsMapConcat(a, b[..|b| - 1]);
    }
  }

  /** A key no entry carries is not in the map. */
  lemma {:induction false} AbsentKey(es: seq<Entry>, key: int)
    requires forall i | 0 <= i < |es| :: es[i].key != key
    ensures key !in AsMap(es)
  {
    if es != [] {
      AbsentKey(es[..|es| - 1], key);
    }
  }

  /** `at` separates the smaller keys from the larger ones. */
  ghost predicate Separates(es: seq<Entry>, key: int, at: int) {
    && 0 <= at <= |es|
    && (forall i | 0 <= i < at :: es[i].key < key)
    && (forall i | at <= i < |es| :: key < es[i].key)
  }

  /** What a list with entry `e` between `a` and `b` maps to, when neither part
      mentions its key. */
  lemma {:induction false} AsMapAround(a: seq<Entry>, e: Entry, b: seq<Entry>)
    requires forall i | 0 <= i < |a| :: a[i].key != e.key
    requires forall i | 0 <= i < |b| :: b[i].key != e.key
    ensures AsMap(a + [e] + b) == AsMap(a + b)[e.key := e.rowId]
    ensures e.key !in AsMap(a + b)
  {
    AsMapConcat(a + [e], b);
    AsMapConcat(a, [e]);
    assert AsMap([e]) == map[e.key := e.rowId];
    AsMapConcat(a, b);
    AbsentKey(a, e.key);
    AbsentKey(b, e.key);
  }

  lemma {:induction false} SortedAround(a: seq<Entry>, e: Entry, b: seq<Entry>)
    requires Sorted(a + b)
    requires forall i | 0 <= i < |a| :: a[i].key < e.key
    requires forall i | 0 <= i < |b| :: e.key < b[i].key
    ensures Sorted(a + [e] + b)
  {
    var es := a + [e] + b;
    forall i, j | 0 <= i < j < |es|
      ensures es[i].key < es[j].key
    {
      if i != |a| && j != |a| {
        var i', j' := if i < |a| then i else i - 1, if j < |a| then j else j - 1;
        assert es[i] == (a + b)[i'] && es[j] == (a + b)[j'];
      } else if i == |a| {
        assert es[j] == b[j - |a| - 1];
      } else {
        assert es[i] == a[i];
      }
    }
  }

  /** Putting an entry between the smaller and the larger ones. */
  lemma {:induction false} InsertEntry(es: seq<Entry>, at: nat, e: Entry)
    requires Sorted(es) && Separates(es, e.key, at)
    ensures Sorted(es[..at] + [e] + es[at..])
    ensures AsMap(es[..at] + [e] + es[at..]) == AsMap(es)[e.key := e.rowId]
  {
    assert es[..at] + es[at..] == es;
    SortedAround(es[..at], e, es[at..]);
    AsMapAround(es[..at], e, es[at..]);
  }

  /** Taking an entry out, or replacing its row. */
  lemma {:induction false} RemoveEntry(a: seq<Entry>, e: Entry, b: seq<Entry>)
    requires Sorted(a + [e] + b)
    ensures Sorted(a + b)
    ensures AsMap(a + [e] + b) == AsMap(a + b)[e.key := e.rowId]
    ensures AsMap(a + b) == AsMap(a + [e] + b) - {e.key}
  {
    var es := a + [e] + b;
    forall i | 0 <= i < |a|
      ensures a[i].key < e.key
    {
      assert es[i] == a[i] && es[|a|] == e;
    }
    forall i | 0 <= i < |b|
      ensures e.key < b[i].key
    {
      assert es[|a| + 1 + i] == b[i] && es[|a|] == e;
    }
    forall i, j | 0 <= i < j < |a + b|
      ensures (a + b)[i].key < (a + b)[j].key
    {
      assert (a + b)[i] == es[if i < |a| then i else i + 1];
      assert (a + b)[j] == es[if j < |a| then j else j + 1];
    }
    AsMapAround(a, e, b);
  }

  lemma {:induction false} UpdateEntry(es: seq<Entry>, at: nat, rowId: int)
    requires Sorted(es) && at < |es|
    ensures Sorted(es[at := Entry(es[at].key, rowId)])
    ensures AsMap(es[at := Entry(es[at].key, rowId)]) == AsMap(es)[es[at].key := rowId]
  {
    var a, b := es[..at], es[at + 1..];
    var e' := Entry(es[at].key, rowId);
    var es' := es[at := e'];
    assert es == a + [es[at]] + b && es' == a + [e'] + b;
    forall i, j | 0 <= i < j < |es'|
      ensures es'[i].key < es'[j].key
    {
      assert es'[i].key == es[i].key && es'[j].key == es[j].key;
    }
    RemoveEntry(a, es[at], b);
    RemoveEntry(a, e', b);
  }

  /** How many halvings empty an interval of n elements. */
  ghost function Halvings(n: nat): nat {
    if n == 0 then 0 else 1 + Halvings(n / 2)
  }

  ghost function Pow2(n: nat): nat {
    if n == 0 then 1 else 2 * Pow2(n - 1)
  }

  lemma {:induction false} HalvingsMonotone(m: nat, n: nat)
    requires m <= n
    ensures Halvings(m) <= Halvings(n)
  {
    if m > 0 {
      HalvingsMonotone(m / 2, n / 2);
    }
  }

  /** For n > 0 the number of halvings is floor(log2 n) + 1. */
  lemma {:induction false} HalvingsIsLogarithm(n: nat)
    requires n > 0
    ensures Halvings(n) > 0
    ensures Pow2(Halvings(n) - 1) <= n < Pow2(Halvings(n))
  {
    if n > 1 {
      HalvingsIsLogarithm(n / 2);
    }
  }

  /** The middle of an interval, as the search computes it: it stays inside, and
      no step on the way exceeds `hi`. */
  function Midpoint(lo: nat, hi: nat): (mid: nat)
    requires lo <= hi
    ensures lo <= mid <= hi && mid - lo <= hi - mid <= mid - lo + 1
    ensures hi - lo <= hi && (hi - lo) / 2 <= hi
  {
    lo + (hi - lo) / 2
  }

  class Index {
    var entries: seq<Entry>

    ghost predicate Valid()
      reads this
    {
      Sorted(entries)
    }

    ghost function Contents(): map<int, int>
      reads this
    {
      AsMap(entries)
    }

    constructor ()
      ensures Valid() && Contents() == map[]
    {
      entries := [];
    }

    /** The slot of `key`, or ~at for the unique slot `at` it would go to.
        `probes` counts the entries looked at. */
    method FindPos(key: int) returns (pos: int, ghost probes: nat)
      requires Valid()
      ensures pos >= 0 ==> pos < |entries| && entries[pos].key == key
      ensures pos < 0 ==> Separates(entries, key, -pos - 1)
      ensures probes <= Halvings(|entries|)
    {
      probes := 0;
      if |entries| == 0 {
        return -1, probes;
      }
      var lo, hi := 0, |entries| - 1;
      while lo <= hi
        invariant 0 <= lo <= hi + 1 <= |entries|
        invariant forall i | 0 <= i < lo :: entries[i].key < key
        invariant forall i | hi < i < |entries| :: key < entries[i].key
        invariant probes + Halvings(hi - lo + 1) <= Halvings(|entries|)
        decreases hi - lo
      {
        var mid := Midpoint(lo, hi);
        probes := probes + 1;
        if entries[mid].key == key {
          return mid, probes;
        }
        HalvingsMonotone(hi - mid, (hi - lo + 1) / 2);
        HalvingsMonotone(mid - lo, (hi - lo + 1) / 2);
        if entries[mid].key < key {
          lo := mid + 1;
        } else {
          hi := mid - 1;
        }
      }
      return -lo - 1, probes;
    }

    method Insert(key: int, rowId: int)
      requires Valid()
      modifies this
      ensures Valid()
      ensures Contents() == old(Contents())[key := rowId]
    {
      ghost var was := entries;
      var pos, _ := FindPos(key);
      if pos >= 0 {
        UpdateEntry(entries, pos, rowId);
        entries := entries[pos := Entry(entries[pos].key, rowId)];
        return;
      }
      var insertAt := -pos - 1;
      var e := Entry(key, rowId);
      InsertEntry(entries, insertAt, e);
      if insertAt >= |entries| {
        entries := entries + [e];
      } else {
        entries := entries + [Entry(0, 0)];
        ShiftRight(insertAt);
        entries := entries[insertAt := e];
      }
      assert entries == was[..insertAt] + [e] + was[insertAt..];
    }

    /** The shifting loop of Insert: every entry from `at` on moves one slot up
        into the placeholder at the end. */
    method ShiftRight(at: nat)
      requires at < |entries|
      modifies this
      ensures |entries| == |old(entries)|
      ensures entries[..at] == old(entries)[..at]
      ensures entries[at + 1..] == old(entries)[at..|old(entries)| - 1]
    {
      ghost var was := entries[..|entries| - 1];
      var i := |entries| - 1;
      while i > at
        invariant at <= i <= |was| && |entries| == |was| + 1
        invariant forall k | 0 <= k < i :: entries[k] == was[k]
        invariant forall k | i < k <= |was| :: entries[k] == was[k - 1]
      {
        entries := entries[i := entries[i - 1]];
        i := i - 1;
      }
    }

    method Find(key: int) returns (found: bool, rowId: int)
      requires Valid()
      ensures found <==> key in Contents()
      ensures found ==> rowId == Contents()[key]
    {
      var pos, _ := FindPos(key);
      if pos < 0 {
        AbsentKey(entries, key);
        return false, 0;
      }
      assert entries == entries[..pos] + [entries[pos]] + entries[pos + 1..];
      RemoveEntry(entries[..pos], entries[pos], entries[pos + 1..]);
      return true, entries[pos].rowId;
    }

    method Remove(key: int) returns (removed: bool)
      requires Valid()
      modifies this
      ensures Valid()
      ensures removed <==> key in old(Contents())
      ensures Contents() == old(Contents()) - {key}
    {
      var pos, _ := FindPos(key);
      if pos < 0 {
        AbsentKey(entries, key);
        return false;
      }
      assert entries == entries[..pos] + [entries[pos]] + entries[pos + 1..];
      RemoveEntry(entries[..pos], entries[pos], entries[pos + 1..]);
      ShiftLeft(pos);
      return true;
    }

    /** The shifting loop of Remove: the entries after `at` move one slot down
        and the last slot is dropped. */
    method ShiftLeft(at: nat)
      requires at < |entries|
      modifies this
      ensures entries == Sequences.Remove(old(entries), at)
    {
      ghost var was := entries;
      var i := at;
      ShiftStarts(was, at);
      while i + 1 < |entries|
        invariant Shifted(was, entries, at, i)
      {
        ShiftStep(was, entries, at, i);
        entries := entries[i := entries[i + 1]];
        i := i + 1;
      }
      ShiftEnds(was, entries, at);
      entries := entries[..|entries| - 1];
    }

    method Clear()
      modifies this
      ensures Valid() && Contents() == map[]
    {
      entries := [];
    }
  }
}
