/** The order the kiosk sorts by. `localeCompare` is replaced by the
    lexicographic order on character codes, which is also the order in which
    IndexedDB lists string keys; `Array.prototype.sort` is stable, so sorting
    is a stable insertion sort. */
module Ordering {

  /** `a` comes strictly before `b` in lexicographic order. */
  predicate LexLess(a: string, b: string)
    decreases |a|
  {
    b != [] && (a == [] || a[0] < b[0] || (a[0] == b[0] && LexLess(a[1..], b[1..])))
  }

  predicate LexLe(a: string, b: string)
  {
    a == b || LexLess(a, b)
  }

  lemma {:induction false} LexLessIrreflexive(a: string)
    ensures !LexLess(a, a)
    decreases |a|
  {
    if a != [] {
      LexLessIrreflexive(a[1..]);
    }
  }

  lemma {:induction false} LexLessTransitive(a: string, b: string, c: string)
    requires LexLess(a, b) && LexLess(b, c)
    ensures LexLess(a, c)
    decreases |a|
  {
    if a != [] && a[0] == b[0] && b[0] == c[0] {
      LexLessTransitive(a[1..], b[1..], c[1..]);
    }
  }

  lemma {:induction false} LexTotal(a: string, b: string)
    ensures a == b || LexLess(a, b) || LexLess(b, a)
    decreases |a|
  {
    if a != [] && b != [] && a[0] == b[0] {
      LexTotal(a[1..], b[1..]);
      if a[1..] == b[1..] {
        assert a == [a[0]] + a[1..] && b == [b[0]] + b[1..];
      }
    }
  }

  lemma {:induction false} LexLessAsymmetric(a: string, b: string)
    requires LexLess(a, b)
    ensures !LexLess(b, a) && a != b
  {
    LexLessIrreflexive(a);
    if LexLess(b, a) {
      LexLessTransitive(a, b, a);
    }
  }

  lemma {:induction false} LexLeTransitive(a: string, b: string, c: string)
    requires LexLe(a, b) && LexLe(b, c)
    ensures LexLe(a, c)
  {
    if a != b && b != c {
      LexLessTransitive(a, b, c);
    }
  }

  /** Every pair of elements is in order of `key`. */
  ghost predicate SortedBy<T>(s: seq<T>, key: T -> string)
  {
    forall i, j :: 0 <= i < j < |s| ==> LexLe(key(s[i]), key(s[j]))
  }

  /** Inserts `x` after every element whose key is not greater than its own. */
  function Insert<T(==)>(s: seq<T>, x: T, key: T -> string): (r: seq<T>)
    ensures multiset(r) == multiset(s) + multiset{x}
  {
    if s == [] then [x]
    else if LexLess(key(x), key(s[0])) then [x] + s
    else
      assert s == [s[0]] + s[1..];
      [s[0]] + Insert(s[1..], x, key)
  }

  /** Every element's key is at least `b`. */
  ghost predicate AllAtLeast<T>(s: seq<T>, b: string, key: T -> string)
  {
    forall i :: 0 <= i < |s| ==> LexLe(b, key(s[i]))
  }

  lemma {:induction false} InsertAtLeast<T>(s: seq<T>, x: T, key: T -> string, b: string)
    requires AllAtLeast(s, b, key) && LexLe(b, key(x))
    ensures AllAtLeast(Insert(s, x, key), b, key)
  {
    if s == [] {
      assert Insert(s, x, key) == [x];
    } else if LexLess(key(x), key(s[0])) {
      var r := Insert(s, x, key);
      assert r == [x] + s;
      assert forall i :: 1 <= i < |r| ==> r[i] == s[i - 1];
    } else {
      var t := Insert(s[1..], x, key);
      InsertAtLeast(s[1..], x, key, b);
      assert Insert(s, x, key) == [s[0]] + t;
    }
  }

  lemma {:induction false} InsertSorted<T>(s: seq<T>, x: T, key: T -> string)
    requires SortedBy(s, key)
    ensures SortedBy(Insert(s, x, key), key)
  {
    var r := Insert(s, x, key);
    if s == [] {
    } else if LexLess(key(x), key(s[0])) {
      forall j | 0 < j < |r| ensures LexLe(key(r[0]), key(r[j])) {
        LexLeTransitive(key(x), key(s[0]), key(s[j - 1]));
      }
    } else {
      var t := Insert(s[1..], x, key);
      InsertSorted(s[1..], x, key);
      LexTotal(key(x), key(s[0]));
      assert AllAtLeast(s[1..], key(s[0]), key);
      InsertAtLeast(s[1..], x, key, key(s[0]));
      assert r == [s[0]] + t;
    }
  }

  /** A stable sort by `key`. */
  function SortBy<T(==)>(s: seq<T>, key: T -> string): (r: seq<T>)
    ensures multiset(r) == multiset(s) && |r| == |s|
    ensures SortedBy(r, key)
  {
    if s == [] then []
    else
      var init := SortBy(s[..|s| - 1], key);
      InsertSorted(init, s[|s| - 1], key);
      assert s == s[..|s| - 1] + [s[|s| - 1]];
      Insert(init, s[|s| - 1], key)
  }

  lemma {:induction false} SortByMembership<T>(s: seq<T>, key: T -> string, x: T)
    ensures x in SortBy(s, key) <==> x in s
  {
    var r := SortBy(s, key);
    assert x in r <==> x in multiset(r);
    assert x in s <==> x in multiset(s);
  }
}
