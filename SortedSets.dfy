/** java.util.TreeSet as the configuration classes use it: a sequence of
    elements in strictly ascending order of a string key, where two elements with
    the same key are the same element as far as the set is concerned. `ByKey`
    is the abstract view of such a sequence: each key to the element that holds
    it. */
module SortedSets {
  import opened JavaLang

  /** Strictly ascending keys, hence no key twice. */
  ghost predicate Sorted<T>(s: seq<T>, key: T -> string)
  {
    forall i, j :: 0 <= i < j < |s| ==> Less(key(s[i]), key(s[j]))
  }

  /** Every key of `s` comes after `lo`. */
  ghost predicate AllAbove<T>(s: seq<T>, lo: string, key: T -> string)
  {
    forall i :: 0 <= i < |s| ==> Less(lo, key(s[i]))
  }

  /** Each key to the element that holds it; when a key occurs more than once,
      the later element wins, as it does for a run of TreeSet adds that replace. */
  function ByKey<T>(s: seq<T>, key: T -> string): map<string, T>
  {
    if s == [] then map[] else map[key(s[0]) := s[0]] + ByKey(s[1..], key)
  }

  /** TreeSet.remove: drop the element whose key is `k`. */
  function Remove<T>(s: seq<T>, k: string, key: T -> string): seq<T>
  {
    if s == [] then []
    else if key(s[0]) == k then Remove(s[1..], k, key)
    else [s[0]] + Remove(s[1..], k, key)
  }

  /** TreeSet.add of an element whose key is not yet present: insert it at its
      place in key order. */
  function Insert<T>(s: seq<T>, x: T, key: T -> string): seq<T>
  {
    if s == [] then [x]
    else if Less(key(x), key(s[0])) then [x] + s
    else [s[0]] + Insert(s[1..], x, key)
  }

  /** Remove-then-add: the replace step the configuration classes build on. */
  function Put<T>(s: seq<T>, x: T, key: T -> string): seq<T>
  {
    Insert(Remove(s, key(x), key), x, key)
  }

  lemma SortedCons<T>(x: T, s: seq<T>, key: T -> string)
    ensures Sorted([x] + s, key) <==> AllAbove(s, key(x), key) && Sorted(s, key)
  {
    var t := [x] + s;
    if AllAbove(s, key(x), key) && Sorted(s, key) {
      forall i, j | 0 <= i < j < |t| ensures Less(key(t[i]), key(t[j])) {
        if i > 0 {
          assert t[i] == s[i - 1] && t[j] == s[j - 1];
        }
      }
    }
    if Sorted(t, key) {
      forall i | 0 <= i < |s| ensures Less(key(x), key(s[i])) {
        assert t[0] == x && t[i + 1] == s[i];
        assert Less(key(t[0]), key(t[i + 1]));
      }
      forall i, j | 0 <= i < j < |s| ensures Less(key(s[i]), key(s[j])) {
        assert t[i + 1] == s[i] && t[j + 1] == s[j];
      }
    }
  }

  /** A key that no element carries is not in the map view. */
  lemma {:induction false} ByKeyMissing<T>(s: seq<T>, k: string, key: T -> string)
    requires forall i :: 0 <= i < |s| ==> key(s[i]) != k
    ensures k !in ByKey(s, key)
  {
    if s != [] {
      ByKeyMissing(s[1..], k, key);
    }
  }

  /** Every key in the map view is carried by some element. */
  lemma {:induction false} ByKeyPresent<T>(s: seq<T>, k: string, key: T -> string)
    requires k in ByKey(s, key)
    ensures exists i :: 0 <= i < |s| && key(s[i]) == k
  {
    if key(s[0]) != k {
      ByKeyPresent(s[1..], k, key);
      var i :| 0 <= i < |s[1..]| && key(s[1..][i]) == k;
      assert key(s[i + 1]) == k;
    }
  }

  /** In a sorted sequence, the element at index `i` is the one the map view
      gives for its key: a key is held by exactly one element. */
  lemma {:induction false} ByKeyAt<T>(s: seq<T>, i: nat, key: T -> string)
    requires Sorted(s, key) && i < |s|
    ensures key(s[i]) in ByKey(s, key) && ByKey(s, key)[key(s[i])] == s[i]
  {
    SortedCons(s[0], s[1..], key);
    assert [s[0]] + s[1..] == s;
    if i == 0 {
      forall j | 0 <= j < |s[1..]| ensures key(s[1..][j]) != key(s[0]) {
        LessIrreflexive(key(s[0]));
      }
      ByKeyMissing(s[1..], key(s[0]), key);
    } else {
      ByKeyAt(s[1..], i - 1, key);
    }
  }

  /** Removing the first element of a sorted sequence removes exactly its key. */
  lemma ByKeyTail<T>(s: seq<T>, key: T -> string)
    requires Sorted(s, key) && s != []
    ensures ByKey(s[1..], key).Keys == ByKey(s, key).Keys - {key(s[0])}
    ensures key(s[0]) !in ByKey(s[1..], key)
  {
    SortedCons(s[0], s[1..], key);
    assert [s[0]] + s[1..] == s;
    forall j | 0 <= j < |s[1..]| ensures key(s[1..][j]) != key(s[0]) {
      LessIrreflexive(key(s[0]));
    }
    ByKeyMissing(s[1..], key(s[0]), key);
  }

  /** The map view of a concatenation: the right part wins. */
  lemma {:induction false} ByKeyConcat<T>(a: seq<T>, b: seq<T>, key: T -> string)
    ensures ByKey(a + b, key) == ByKey(a, key) + ByKey(b, key)
  {
    if a == [] {
      assert a + b == b;
    } else {
      assert (a + b)[1..] == a[1..] + b;
      ByKeyConcat(a[1..], b, key);
      var m := map[key(a[0]) := a[0]];
      assert ByKey(a + b, key) == m + (ByKey(a[1..], key) + ByKey(b, key));
      assert m + (ByKey(a[1..], key) + ByKey(b, key)) == (m + ByKey(a[1..], key)) + ByKey(b, key);
    }
  }

  lemma {:induction false} RemoveAbove<T>(s: seq<T>, k: string, lo: string, key: T -> string)
    requires AllAbove(s, lo, key)
    ensures AllAbove(Remove(s, k, key), lo, key)
    ensures forall y :: y in Remove(s, k, key) ==> y in s
  {
    if s != [] {
      RemoveAbove(s[1..], k, lo, key);
    }
  }

  /** Remove keeps the order and takes exactly key `k` out of the map view. */
  lemma {:induction false} RemoveSpec<T>(s: seq<T>, k: string, key: T -> string)
    requires Sorted(s, key)
    ensures Sorted(Remove(s, k, key), key)
    ensures ByKey(Remove(s, k, key), key) == ByKey(s, key) - {k}
    ensures forall y :: y in Remove(s, k, key) ==> y in s
  {
    if s != [] {
      var rest := s[1..];
      assert [s[0]] + rest == s;
      SortedCons(s[0], rest, key);
      RemoveSpec(rest, k, key);
      RemoveAbove(rest, k, key(s[0]), key);
      var m := map[key(s[0]) := s[0]];
      if key(s[0]) == k {
        assert ByKey(s, key) - {k} == ByKey(rest, key) - {k};
      } else {
        SortedCons(s[0], Remove(rest, k, key), key);
        assert ByKey(Remove(s, k, key), key) == m + (ByKey(rest, key) - {k});
        assert m + (ByKey(rest, key) - {k}) == (m + ByKey(rest, key)) - {k};
      }
    }
  }

  /** A sorted sequence whose first key is above `lo` lies wholly above `lo`. */
  lemma SortedAbove<T>(s: seq<T>, lo: string, key: T -> string)
    requires Sorted(s, key) && s != [] && Less(lo, key(s[0]))
    ensures AllAbove(s, lo, key)
  {
    forall i | 0 < i < |s| ensures Less(lo, key(s[i])) {
      LessTransitive(lo, key(s[0]), key(s[i]));
    }
  }

  lemma {:induction false} InsertAbove<T>(s: seq<T>, x: T, lo: string, key: T -> string)
    requires AllAbove(s, lo, key) && Less(lo, key(x))
    ensures AllAbove(Insert(s, x, key), lo, key)
    ensures forall y :: y in Insert(s, x, key) ==> y in s || y == x
  {
    if s != [] && !Less(key(x), key(s[0])) {
      InsertAbove(s[1..], x, lo, key);
    }
  }

  /** Insert of a new key keeps the order and adds exactly that key. */
  lemma {:induction false} InsertSpec<T>(s: seq<T>, x: T, key: T -> string)
    requires Sorted(s, key) && key(x) !in ByKey(s, key)
    ensures Sorted(Insert(s, x, key), key)
    ensures ByKey(Insert(s, x, key), key) == ByKey(s, key)[key(x) := x]
    ensures forall y :: y in Insert(s, x, key) ==> y in s || y == x
  {
    if s == [] {
      assert ByKey([x], key) == map[key(x) := x];
    } else {
      var rest := s[1..];
      assert [s[0]] + rest == s;
      SortedCons(s[0], rest, key);
      var m := map[key(s[0]) := s[0]];
      if Less(key(x), key(s[0])) {
        SortedAbove(s, key(x), key);
        SortedCons(x, s, key);
        assert ByKey(Insert(s, x, key), key) == map[key(x) := x] + ByKey(s, key);
      } else {
        assert key(s[0]) in ByKey(s, key);
        LessTotal(key(x), key(s[0]));
        InsertSpec(rest, x, key);
        InsertAbove(rest, x, key(s[0]), key);
        SortedCons(s[0], Insert(rest, x, key), key);
        assert ByKey(Insert(s, x, key), key) == m + ByKey(rest, key)[key(x) := x];
      }
    }
  }

  /** Remove-then-add keeps the order and maps the element's key to it. */
  lemma PutSpec<T>(s: seq<T>, x: T, key: T -> string)
    requires Sorted(s, key)
    ensures Sorted(Put(s, x, key), key)
    ensures ByKey(Put(s, x, key), key) == ByKey(s, key)[key(x) := x]
    ensures forall y :: y in Put(s, x, key) ==> y in s || y == x
  {
    var r := Remove(s, key(x), key);
    RemoveSpec(s, key(x), key);
    InsertSpec(r, x, key);
    assert (ByKey(s, key) - {key(x)})[key(x) := x] == ByKey(s, key)[key(x) := x];
  }

  /** Two sorted sequences with the same keys hold them in the same order. */
  lemma {:induction false} SameKeysSameOrder<T, U>(s: seq<T>, t: seq<U>, ks: T -> string, kt: U -> string)
    requires Sorted(s, ks) && Sorted(t, kt)
    requires ByKey(s, ks).Keys == ByKey(t, kt).Keys
    ensures |s| == |t|
    ensures forall i :: 0 <= i < |s| ==> ks(s[i]) == kt(t[i])
  {
    if s == [] {
      if t != [] {
        ByKeyAt(t, 0, kt);
      }
    } else if t == [] {
      ByKeyAt(s, 0, ks);
    } else {
      var a, b := ks(s[0]), kt(t[0]);
      ByKeyAt(s, 0, ks);
      ByKeyAt(t, 0, kt);
      ByKeyPresent(t, a, kt);
      ByKeyPresent(s, b, ks);
      var j :| 0 <= j < |t| && kt(t[j]) == a;
      var i :| 0 <= i < |s| && ks(s[i]) == b;
      if i != 0 && j != 0 {
        LessAsymmetric(a, b);
        assert false;
      }
      ByKeyTail(s, ks);
      ByKeyTail(t, kt);
      SameKeysSameOrder(s[1..], t[1..], ks, kt);
      forall k | 0 <= k < |s| ensures ks(s[k]) == kt(t[k]) {
        if k > 0 {
          assert ks(s[1..][k - 1]) == kt(t[1..][k - 1]);
        }
      }
    }
  }

  /** AbstractSet.equals as TreeSet runs it: equal sizes, and every element of
      `t` found in `s` by key. For sorted sequences that is equality of key sets. */
  lemma SizeAndContainsAll<T, U>(s: seq<T>, t: seq<U>, ks: T -> string, kt: U -> string)
    requires Sorted(s, ks) && Sorted(t, kt)
    ensures (|s| == |t| && forall i :: 0 <= i < |t| ==> kt(t[i]) in ByKey(s, ks))
            <==> ByKey(s, ks).Keys == ByKey(t, kt).Keys
  {
    var a, b := ByKey(s, ks).Keys, ByKey(t, kt).Keys;
    KeyCount(s, ks);
    KeyCount(t, kt);
    if |s| == |t| && forall i :: 0 <= i < |t| ==> kt(t[i]) in ByKey(s, ks) {
      forall k | k in b ensures k in a {
        ByKeyPresent(t, k, kt);
      }
      SubsetOfSameSize(b, a);
    }
    if a == b {
      forall i | 0 <= i < |t| ensures kt(t[i]) in ByKey(s, ks) {
        ByKeyAt(t, i, kt);
      }
    }
  }

  lemma SubsetOfSameSize(a: set<string>, b: set<string>)
    requires a <= b && |a| == |b|
    ensures a == b
  {
    if a != b {
      var x :| x in b && x !in a;
      assert a <= b - {x};
      assert |b - {x}| == |b| - 1;
      SubsetSize(a, b - {x});
    }
  }

  lemma {:induction false} SubsetSize(a: set<string>, b: set<string>)
    requires a <= b
    ensures |a| <= |b|
  {
    if a != {} {
      var x :| x in a;
      SubsetSize(a - {x}, b - {x});
    }
  }

  /** A sorted sequence has as many keys as elements. */
  lemma {:induction false} KeyCount<T>(s: seq<T>, key: T -> string)
    requires Sorted(s, key)
    ensures |ByKey(s, key).Keys| == |s|
  {
    if s != [] {
      SortedCons(s[0], s[1..], key);
      assert [s[0]] + s[1..] == s;
      ByKeyTail(s, key);
      KeyCount(s[1..], key);
      ByKeyAt(s, 0, key);
    }
  }
}
