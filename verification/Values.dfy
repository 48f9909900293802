/** Cell values and their ordering. */
module Values {

  datatype Value = None | Int(n: int) | Str(s: string)

  /** strcmp, of which only the sign means anything. */
  function StrCmp(a: string, b: string): int {
    if a == "" && b == "" then 0
    else if a == "" then -1
    else if b == "" then 1
    else if a[0] < b[0] then -1
    else if a[0] > b[0] then 1
    else StrCmp(a[1..], b[1..])
  }

  function Compare(a: Value, b: Value): int {
    match (a, b)
    case (None, None) => 0
    case (None, _) => -1
    case (_, None) => 1
    case (Int(m), Int(n)) => if m < n then -1 else if m > n then 1 else 0
    case (Str(s), Str(t)) => StrCmp(s, t)
    case (Int(_), Str(_)) => -1
    case (Str(_), Int(_)) => 1
  }

  lemma {:induction false} StrCmpZero(a: string, b: string)
    ensures StrCmp(a, b) == 0 <==> a == b
  {
    if a == "" || b == "" || a[0] != b[0] {
    } else {
      StrCmpZero(a[1..], b[1..]);
      assert a == [a[0]] + a[1..] && b == [b[0]] + b[1..];
    }
  }

  lemma {:induction false} StrCmpFlips(a: string, b: string)
    ensures StrCmp(a, b) == -StrCmp(b, a)
  {
    if a == "" || b == "" || a[0] != b[0] {
    } else {
      StrCmpFlips(a[1..], b[1..]);
    }
  }

  lemma {:induction false} StrCmpTransitive(a: string, b: string, c: string)
    requires StrCmp(a, b) <= 0 && StrCmp(b, c) <= 0
    ensures StrCmp(a, c) <= 0
  {
    if a == "" || b == "" || c == "" || a[0] != b[0] || b[0] != c[0] {
    } else {
      StrCmpTransitive(a[1..], b[1..], c[1..]);
    }
  }

  /** The strcmp sign is the dictionary order: at the first difference the
      smaller character, or the end of the string, comes first. */
  ghost predicate Precedes(a: string, b: string) {
    exists k ::
      && 0 <= k <= |a| && k < |b| && a[..k] == b[..k]
      && (k == |a| || a[k] < b[k])
  }

  lemma {:induction false} FirstOfPrefix(a: string, b: string, k: nat)
    requires 0 < k <= |a| && k <= |b| && a[..k] == b[..k]
    ensures a[0] == b[0]
  {
    assert a[..k][0] == b[..k][0];
  }

  lemma {:induction false} StrCmpIsDictionaryOrder(a: string, b: string)
    ensures StrCmp(a, b) < 0 <==> Precedes(a, b)
  {
    if a == "" || b == "" {
      if b != "" {
        assert a[..0] == b[..0];
      }
    } else if a[0] != b[0] {
      if a[0] < b[0] {
        assert a[..0] == b[..0];
      } else if Precedes(a, b) {
        var k :| 0 <= k <= |a| && k < |b| && a[..k] == b[..k] && (k == |a| || a[k] < b[k]);
        if k > 0 {
          FirstOfPrefix(a, b, k);
          assert false;
        }
      }
    } else {
      StrCmpIsDictionaryOrder(a[1..], b[1..]);
      SameHead(a, b);
    }
  }

  /** Behind equal first characters the rest decides. */
  lemma {:induction false} SameHead(a: string, b: string)
    requires a != "" && b != "" && a[0] == b[0]
    ensures Precedes(a, b) <==> Precedes(a[1..], b[1..])
  {
    var a', b' := a[1..], b[1..];
    if Precedes(a', b') {
      var k :| 0 <= k <= |a'| && k < |b'| && a'[..k] == b'[..k] && (k == |a'| || a'[k] < b'[k]);
      assert a[..k + 1] == [a[0]] + a'[..k] && b[..k + 1] == [b[0]] + b'[..k];
    }
    if Precedes(a, b) {
      var k :| 0 <= k <= |a| && k < |b| && a[..k] == b[..k] && (k == |a| || a[k] < b[k]);
      assert k > 0;
      assert a'[..k - 1] == a[..k][1..] && b'[..k - 1] == b[..k][1..];
    }
  }

  /** The order of values: NONE first, then the integers by size, then the strings
      as in a dictionary. */
  ghost predicate Before(a: Value, b: Value) {
    match (a, b)
    case (None, _) => !b.None?
    case (Int(m), Int(n)) => m < n
    case (Int(_), Str(_)) => true
    case (Str(s), Str(t)) => Precedes(s, t)
    case _ => false
  }

  /** Compare is a total order on all values, namely that one: only equal values
      tie, swapping the arguments flips the sign, and the order is transitive. */
  lemma {:induction false} CompareIsTotalOrder(a: Value, b: Value, c: Value)
    ensures Compare(a, b) == 0 <==> a == b
    ensures Compare(a, b) < 0 <==> Before(a, b)
    ensures Compare(a, b) > 0 <==> Before(b, a)
    ensures Compare(a, b) < 0 <==> Compare(b, a) > 0
    ensures Compare(a, b) <= 0 && Compare(b, c) <= 0 ==> Compare(a, c) <= 0
  {
    if a.Str? && b.Str? {
      StrCmpZero(a.s, b.s);
      StrCmpFlips(a.s, b.s);
      StrCmpIsDictionaryOrder(a.s, b.s);
      StrCmpIsDictionaryOrder(b.s, a.s);
      if c.Str? && StrCmp(a.s, b.s) <= 0 && StrCmp(b.s, c.s) <= 0 {
        StrCmpTransitive(a.s, b.s, c.s);
      }
    }
  }
}
