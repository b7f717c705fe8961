/**
 * The order `errors.sort()` puts error-classification triples in
 * (appraise/wmt13/models.py:766-767): Python's tuple order, that is by word
 * id, then error class, then severity, with strings compared code point by
 * code point.
 */
module ErrorOrder {

  /** `(word_id, error_class, severity)`. */
  type Triple = (int, string, string)

  /** Python's `a <= b` on strings. */
  predicate StrLe(a: string, b: string)
  {
    if |a| == 0 then true
    else if |b| == 0 then false
    else if a[0] != b[0] then a[0] < b[0]
    else StrLe(a[1..], b[1..])
  }

  lemma {:induction false} StrLeTotal(a: string, b: string)
    ensures StrLe(a, b) || StrLe(b, a)
  {
    if |a| > 0 && |b| > 0 && a[0] == b[0] {
      StrLeTotal(a[1..], b[1..]);
    }
  }

  lemma {:induction false} StrLeAntisymmetric(a: string, b: string)
    requires StrLe(a, b) && StrLe(b, a)
    ensures a == b
  {
    if |a| > 0 && |b| > 0 {
      StrLeAntisymmetric(a[1..], b[1..]);
      assert a == [a[0]] + a[1..];
      assert b == [b[0]] + b[1..];
    }
  }

  lemma {:induction false} StrLeReflexive(a: string)
    ensures StrLe(a, a)
  {
    if |a| > 0 {
      StrLeReflexive(a[1..]);
    }
  }

  /** If `a <= b <= c` and `a == c`, all three are equal. */
  lemma StrLeCollapse(a: string, b: string, c: string)
    requires StrLe(a, b) && StrLe(b, c)
    ensures a == c ==> a == b && b == c
  {
    if a == c {
      StrLeAntisymmetric(a, b);
    }
  }

  lemma {:induction false} StrLeTransitive(a: string, b: string, c: string)
    requires StrLe(a, b) && StrLe(b, c)
    ensures StrLe(a, c)
  {
    if |a| > 0 && |b| > 0 && |c| > 0 && a[0] == b[0] && b[0] == c[0] {
      StrLeTransitive(a[1..], b[1..], c[1..]);
    }
  }

  /** Python's `x <= y` on triples. */
  predicate Le(x: Triple, y: Triple)
  {
    x.0 < y.0 || (x.0 == y.0 && (
      (StrLe(x.1, y.1) && x.1 != y.1) || (x.1 == y.1 && StrLe(x.2, y.2))))
  }

  lemma LeTotal(x: Triple, y: Triple)
    ensures Le(x, y) || Le(y, x)
  {
    StrLeTotal(x.1, y.1);
    StrLeTotal(x.2, y.2);
  }

  lemma LeTransitive(x: Triple, y: Triple, z: Triple)
    requires Le(x, y) && Le(y, z)
    ensures Le(x, z)
  {
    if x.0 == y.0 && y.0 == z.0 {
      StrLeReflexive(x.1);
      StrLeReflexive(y.1);
      if x.1 == y.1 && y.1 == z.1 {
        StrLeTransitive(x.2, y.2, z.2);
      } else {
        StrLeTransitive(x.1, y.1, z.1);
        StrLeCollapse(x.1, y.1, z.1);
      }
    }
  }

  /** Ascending in tuple order, every pair, not just neighbours. */
  predicate Sorted(s: seq<Triple>)
  {
    forall i, j :: 0 <= i < j < |s| ==> Le(s[i], s[j])
  }

  function Insert(x: Triple, s: seq<Triple>): (r: seq<Triple>)
    requires Sorted(s)
    ensures Sorted(r)
    ensures multiset(r) == multiset(s) + multiset{x}
  {
    if |s| == 0 then [x]
    else if Le(x, s[0]) then
      SortedCons(x, s);
      [x] + s
    else
      var rest := Insert(x, s[1..]);
      assert s == [s[0]] + s[1..];
      SortedAfterHead(x, s, rest);
      [s[0]] + rest
  }

  /** An element no greater than the head of a sorted list can go in front. */
  lemma SortedCons(x: Triple, s: seq<Triple>)
    requires Sorted(s) && |s| > 0 && Le(x, s[0])
    ensures Sorted([x] + s)
  {
    forall j | 0 < j < |s| ensures Le(x, s[j]) {
      LeTransitive(x, s[0], s[j]);
    }
  }

  /** The head of a sorted list stays in front of the rest with a larger element inserted. */
  lemma SortedAfterHead(x: Triple, s: seq<Triple>, rest: seq<Triple>)
    requires Sorted(s) && |s| > 0 && !Le(x, s[0])
    requires Sorted(rest) && multiset(rest) == multiset(s[1..]) + multiset{x}
    ensures Sorted([s[0]] + rest)
  {
    LeTotal(x, s[0]);
    forall j | 0 <= j < |rest| ensures Le(s[0], rest[j]) {
      assert rest[j] in multiset(rest);
      if rest[j] != x {
        assert rest[j] in multiset(s[1..]);
        var k :| 0 <= k < |s[1..]| && s[1..][k] == rest[j];
        assert Le(s[0], s[k + 1]);
      }
    }
  }

  /** `errors.sort()`: the triples in ascending tuple order, none lost or added. */
  function SortTriples(s: seq<Triple>): (r: seq<Triple>)
    ensures Sorted(r)
    ensures multiset(r) == multiset(s)
    ensures |r| == |s|
  {
    if |s| == 0 then []
    else
      assert s == [s[0]] + s[1..];
      Insert(s[0], SortTriples(s[1..]))
  }
}
