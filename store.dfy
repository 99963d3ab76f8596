/** An IndexedDB object store with an in-line key (`keyPath`). Its records are
    kept as a sequence in ascending key order, which is the order `getAll`
    returns them in; `put` replaces the record carrying the same key or adds
    one, and `delete` removes the record with a key. */
module Store {
  import opened Ordering

  /** Keys strictly increase along the store, so no key occurs twice. */
  ghost predicate Keyed<V>(s: seq<V>, key: V -> string)
  {
    forall i, j :: 0 <= i < j < |s| ==> LexLess(key(s[i]), key(s[j]))
  }

  /** Some record carries key `k`. */
  ghost predicate HasKey<V>(s: seq<V>, k: string, key: V -> string)
  {
    exists i :: 0 <= i < |s| && key(s[i]) == k
  }

  /** `IDBObjectStore.put`: the record takes the place of the one with the
      same key, or is added at its key's position. */
  function Put<V>(s: seq<V>, v: V, key: V -> string): (r: seq<V>)
    ensures |r| <= |s| + 1
  {
    if s == [] then [v]
    else if key(s[0]) == key(v) then [v] + s[1..]
    else if LexLess(key(v), key(s[0])) then [v] + s
    else [s[0]] + Put(s[1..], v, key)
  }

  /** `IDBObjectStore.delete`: the record with key `k`, if any, is removed. */
  function Delete<V>(s: seq<V>, k: string, key: V -> string): (r: seq<V>)
    ensures |r| <= |s|
  {
    if s == [] then []
    else if key(s[0]) == k then Delete(s[1..], k, key)
    else [s[0]] + Delete(s[1..], k, key)
  }

  /** `setProducts` and the category seeding loop: `put` of every record in turn. */
  function PutAll<V>(s: seq<V>, vs: seq<V>, key: V -> string): (r: seq<V>)
    decreases |vs|
  {
    if vs == [] then s else PutAll(Put(s, vs[0], key), vs[1..], key)
  }

  // ----- put -----

  /** Everything in `s` keeps a key below `b` after `v` is put in, when `v`'s does. */
  lemma {:induction false} PutBelow<V>(s: seq<V>, v: V, key: V -> string, b: string)
    requires forall i :: 0 <= i < |s| ==> LexLess(b, key(s[i]))
    requires LexLess(b, key(v))
    ensures forall i :: 0 <= i < |Put(s, v, key)| ==> LexLess(b, key(Put(s, v, key)[i]))
  {
    if s != [] && key(s[0]) != key(v) && !LexLess(key(v), key(s[0])) {
      PutBelow(s[1..], v, key, b);
      var r := Put(s, v, key);
      assert r == [s[0]] + Put(s[1..], v, key);
      assert forall i :: 1 <= i < |r| ==> r[i] == Put(s[1..], v, key)[i - 1];
    } else if s != [] && key(s[0]) == key(v) {
      var r := Put(s, v, key);
      assert forall i :: 1 <= i < |r| ==> r[i] == s[i];
    } else if s != [] {
      var r := Put(s, v, key);
      assert forall i :: 1 <= i < |r| ==> r[i] == s[i - 1];
    }
  }

  lemma KeyedTail<V>(s: seq<V>, key: V -> string)
    requires s != [] && Keyed(s, key)
    ensures Keyed(s[1..], key)
    ensures forall i :: 0 <= i < |s[1..]| ==> LexLess(key(s[0]), key(s[1..][i]))
  {
    assert forall i :: 0 <= i < |s[1..]| ==> s[1..][i] == s[i + 1];
  }

  lemma KeyedCons<V>(x: V, t: seq<V>, key: V -> string)
    requires Keyed(t, key)
    requires forall i :: 0 <= i < |t| ==> LexLess(key(x), key(t[i]))
    ensures Keyed([x] + t, key)
  {
    var r := [x] + t;
    forall i, j | 0 <= i < j < |r| ensures LexLess(key(r[i]), key(r[j])) {
      if i > 0 {
        assert r[i] == t[i - 1] && r[j] == t[j - 1];
      } else {
        assert r[j] == t[j - 1];
      }
    }
  }

  /** `put` keeps the store in strictly ascending key order. */
  lemma {:induction false} PutKeyed<V>(s: seq<V>, v: V, key: V -> string)
    requires Keyed(s, key)
    ensures Keyed(Put(s, v, key), key)
  {
    if s == [] {
    } else if key(s[0]) == key(v) {
      KeyedTail(s, key);
      KeyedCons(v, s[1..], key);
    } else if LexLess(key(v), key(s[0])) {
      forall i | 0 <= i < |s| ensures LexLess(key(v), key(s[i])) {
        if i > 0 {
          LexLessTransitive(key(v), key(s[0]), key(s[i]));
        }
      }
      KeyedCons(v, s, key);
    } else {
      KeyedTail(s, key);
      PutKeyed(s[1..], v, key);
      LexTotal(key(v), key(s[0]));
      PutBelow(s[1..], v, key, key(s[0]));
      KeyedCons(s[0], Put(s[1..], v, key), key);
    }
  }

  /** After a `put` the store holds `v` and, besides it, exactly the records
      whose key differs from `v`'s. */
  lemma {:induction false} PutMembership<V>(s: seq<V>, v: V, key: V -> string, w: V)
    requires Keyed(s, key)
    ensures w in Put(s, v, key) <==> w == v || (w in s && key(w) != key(v))
  {
    if s != [] {
      KeyedTail(s, key);
      assert w in s <==> w == s[0] || w in s[1..];
      if key(s[0]) == key(v) {
        if w in s[1..] {
          var i :| 0 <= i < |s[1..]| && s[1..][i] == w;
          LexLessAsymmetric(key(s[0]), key(w));
        }
      } else if LexLess(key(v), key(s[0])) {
        if w in s[1..] {
          var i :| 0 <= i < |s[1..]| && s[1..][i] == w;
          LexLessTransitive(key(v), key(s[0]), key(w));
          LexLessAsymmetric(key(v), key(w));
        }
        LexLessAsymmetric(key(v), key(s[0]));
      } else {
        PutMembership(s[1..], v, key, w);
      }
    }
  }

  /** A `put` adds a record exactly when no record had its key. */
  lemma {:induction false} PutLength<V>(s: seq<V>, v: V, key: V -> string)
    requires Keyed(s, key)
    ensures |Put(s, v, key)| == if HasKey(s, key(v), key) then |s| else |s| + 1
  {
    if s == [] {
    } else if key(s[0]) == key(v) {
    } else if LexLess(key(v), key(s[0])) {
      if HasKey(s, key(v), key) {
        var i :| 0 <= i < |s| && key(s[i]) == key(v);
        LexLessIrreflexive(key(v));
        LexLessTransitive(key(v), key(s[0]), key(s[i]));
      }
    } else {
      KeyedTail(s, key);
      PutLength(s[1..], v, key);
      assert HasKey(s, key(v), key) <==> HasKey(s[1..], key(v), key) by {
        if HasKey(s, key(v), key) {
          var i :| 0 <= i < |s| && key(s[i]) == key(v);
          assert key(s[1..][i - 1]) == key(v);
        }
        if HasKey(s[1..], key(v), key) {
          var i :| 0 <= i < |s[1..]| && key(s[1..][i]) == key(v);
          assert key(s[i + 1]) == key(v);
        }
      }
    }
  }

  // ----- delete -----

  /** The records left by `delete` are exactly the ones with another key. */
  lemma {:induction false} DeleteMembership<V>(s: seq<V>, k: string, key: V -> string, w: V)
    ensures w in Delete(s, k, key) <==> w in s && key(w) != k
  {
    if s != [] {
      DeleteMembership(s[1..], k, key, w);
      assert w in s <==> w == s[0] || w in s[1..];
    }
  }

  /** Every key `delete` leaves behind was in the store, in the same order. */
  lemma {:induction false} DeleteBelow<V>(s: seq<V>, k: string, key: V -> string, b: string)
    requires forall i :: 0 <= i < |s| ==> LexLess(b, key(s[i]))
    ensures forall i :: 0 <= i < |Delete(s, k, key)| ==> LexLess(b, key(Delete(s, k, key)[i]))
  {
    if s != [] {
      DeleteBelow(s[1..], k, key, b);
      if key(s[0]) != k {
        var r := Delete(s, k, key);
        assert forall i :: 1 <= i < |r| ==> r[i] == Delete(s[1..], k, key)[i - 1];
      }
    }
  }

  /** `delete` keeps the store in strictly ascending key order. */
  lemma {:induction false} DeleteKeyed<V>(s: seq<V>, k: string, key: V -> string)
    requires Keyed(s, key)
    ensures Keyed(Delete(s, k, key), key)
  {
    if s != [] {
      KeyedTail(s, key);
      DeleteKeyed(s[1..], k, key);
      if key(s[0]) != k {
        DeleteBelow(s[1..], k, key, key(s[0]));
        KeyedCons(s[0], Delete(s[1..], k, key), key);
      }
    }
  }

  /** A `delete` removes one record exactly when some record had the key. */
  lemma {:induction false} DeleteLength<V>(s: seq<V>, k: string, key: V -> string)
    requires Keyed(s, key)
    ensures |Delete(s, k, key)| == if HasKey(s, k, key) then |s| - 1 else |s|
  {
    if s != [] {
      KeyedTail(s, key);
      DeleteLength(s[1..], k, key);
      if key(s[0]) == k {
        if HasKey(s[1..], k, key) {
          var i :| 0 <= i < |s[1..]| && key(s[1..][i]) == k;
          LexLessIrreflexive(k);
        }
      } else {
        assert HasKey(s, k, key) <==> HasKey(s[1..], k, key) by {
          if HasKey(s, k, key) {
            var i :| 0 <= i < |s| && key(s[i]) == k;
            assert key(s[1..][i - 1]) == k;
          }
          if HasKey(s[1..], k, key) {
            var i :| 0 <= i < |s[1..]| && key(s[1..][i]) == k;
            assert key(s[i + 1]) == k;
          }
        }
      }
    }
  }

  // ----- put of a list -----

  /** No two records of `vs` share a key: records with equal keys are equal,
      and no record occurs twice. Stated on membership and multiplicity so
      that it carries over to any permutation of `vs`. */
  ghost predicate KeysUnique<V(!new)>(vs: seq<V>, key: V -> string)
  {
    && (forall x, y :: x in vs && y in vs && key(x) == key(y) ==> x == y)
    && (forall x :: multiset(vs)[x] <= 1)
  }

  /** Uniqueness of keys does not depend on the order of the records. */
  lemma {:induction false} KeysUniquePermutation<V(!new)>(a: seq<V>, b: seq<V>, key: V -> string)
    requires multiset(a) == multiset(b) && KeysUnique(a, key)
    ensures KeysUnique(b, key)
  {
    assert forall x :: x in b <==> x in multiset(a);
  }

  /** A store never holds two records with one key. */
  lemma {:induction false} KeyedUnique<V(!new)>(s: seq<V>, key: V -> string)
    requires Keyed(s, key)
    ensures KeysUnique(s, key)
    decreases |s|
  {
    if s != [] {
      var t := s[1..];
      KeyedTail(s, key);
      KeyedUnique(t, key);
      assert s == [s[0]] + t;
      forall i | 0 <= i < |t| ensures key(t[i]) != key(s[0]) {
        assert t[i] == s[i + 1];
        if key(t[i]) == key(s[0]) {
          LexLessIrreflexive(key(s[0]));
        }
      }
      assert s[0] !in t;
      assert multiset(s) == multiset{s[0]} + multiset(t);
      forall x ensures multiset(s)[x] <= 1 {
        if x == s[0] {
          assert multiset(t)[x] == 0;
        }
      }
      assert forall x :: x in s <==> x == s[0] || x in t;
    }
  }

  /** Appending a record whose key is new keeps keys unique. */
  lemma {:induction false} KeysUniqueSnoc<V(!new)>(vs: seq<V>, v: V, key: V -> string)
    requires KeysUnique(vs, key) && !HasKey(vs, key(v), key)
    ensures KeysUnique(vs + [v], key)
  {
    var r := vs + [v];
    assert v !in vs;
    assert multiset(r) == multiset(vs) + multiset{v};
    assert forall x :: x in r <==> x in vs || x == v;
  }

  lemma {:induction false} PutAllKeyed<V>(s: seq<V>, vs: seq<V>, key: V -> string)
    requires Keyed(s, key)
    ensures Keyed(PutAll(s, vs, key), key)
    decreases |vs|
  {
    if vs != [] {
      PutKeyed(s, vs[0], key);
      PutAllKeyed(Put(s, vs[0], key), vs[1..], key);
    }
  }

  lemma KeysUniqueTail<V(!new)>(vs: seq<V>, key: V -> string)
    requires vs != [] && KeysUnique(vs, key)
    ensures KeysUnique(vs[1..], key)
    ensures !HasKey(vs[1..], key(vs[0]), key)
  {
    assert vs == [vs[0]] + vs[1..];
    assert multiset(vs) == multiset{vs[0]} + multiset(vs[1..]);
    forall x ensures multiset(vs[1..])[x] <= 1 {
      assert multiset(vs[1..])[x] <= multiset(vs)[x];
    }
    assert forall x :: x in vs[1..] ==> x in vs;
    assert vs[0] !in vs[1..] by {
      assert multiset(vs)[vs[0]] == 1 + multiset(vs[1..])[vs[0]];
    }
    forall i | 0 <= i < |vs[1..]| ensures key(vs[1..][i]) != key(vs[0]) {
      assert vs[1..][i] in vs;
    }
  }

  /** Putting records with distinct keys one by one leaves those records and
      the earlier records whose keys none of them carries. */
  lemma {:induction false} PutAllMembership<V(!new)>(s: seq<V>, vs: seq<V>, key: V -> string, w: V)
    requires Keyed(s, key) && KeysUnique(vs, key)
    ensures w in PutAll(s, vs, key) <==> w in vs || (w in s && !HasKey(vs, key(w), key))
    decreases |vs|
  {
    if vs != [] {
      var s' := Put(s, vs[0], key);
      PutKeyed(s, vs[0], key);
      KeysUniqueTail(vs, key);
      PutAllMembership(s', vs[1..], key, w);
      PutMembership(s, vs[0], key, w);
      assert w in vs <==> w == vs[0] || w in vs[1..];
      assert HasKey(vs, key(w), key) <==> key(w) == key(vs[0]) || HasKey(vs[1..], key(w), key) by {
        if HasKey(vs, key(w), key) {
          var i :| 0 <= i < |vs| && key(vs[i]) == key(w);
          if i > 0 {
            assert key(vs[1..][i - 1]) == key(w);
          }
        }
        if HasKey(vs[1..], key(w), key) {
          var i :| 0 <= i < |vs[1..]| && key(vs[1..][i]) == key(w);
          assert key(vs[i + 1]) == key(w);
        }
      }
    }
  }
}
