/** Ordering a channel's messages by numeric timestamp (`sortMessagesByTimestamp`):
    a stable sort, in place, of the caller's array. The sort is stated for any key
    into the reals; the specification is insertion into a stably sorted prefix, and
    the lemmas show its result is ordered, a permutation, stable, and the only
    sequence that is all three, so any stable sorting algorithm produces it. */
module TimestampSort {
  import opened SlackTypes
  import opened Timestamp
  import opened Sequences

  /** The sort key of a message: its timestamp's numeric value. */
  function Key(m: Message): real {
    TsValue(m.ts)
  }

  predicate SortedBy<T>(s: seq<T>, key: T -> real) {
    forall i, j :: 0 <= i < j < |s| ==> key(s[i]) <= key(s[j])
  }

  /** Selects the elements whose key is `k`. */
  function KeyIs<T>(key: T -> real, k: real): T -> bool {
    (x: T) => key(x) == k
  }

  /** `x` placed after every element of `t` that does not have a larger key than
      `x`, scanning from the end as an insertion sort does. */
  function Insert<T>(t: seq<T>, x: T, key: T -> real): (r: seq<T>)
  {
    if t == [] || key(t[|t| - 1]) <= key(x) then t + [x]
    else Insert(t[..|t| - 1], x, key) + [t[|t| - 1]]
  }

  /** `s` stably sorted by `key`. */
  function SortBy<T>(s: seq<T>, key: T -> real): (r: seq<T>)
  {
    if s == [] then [] else Insert(SortBy(s[..|s| - 1], key), s[|s| - 1], key)
  }

  /** Insertion adds exactly `x`. */
  lemma {:induction false} InsertPermutes<T>(t: seq<T>, x: T, key: T -> real)
    ensures multiset(Insert(t, x, key)) == multiset(t) + multiset{x}
  {
    if t != [] && key(t[|t| - 1]) > key(x) {
      InsertPermutes(t[..|t| - 1], x, key);
      assert t == t[..|t| - 1] + [t[|t| - 1]];
    }
  }

  /** The specification's result is a permutation of its input. */
  lemma {:induction false} SortByPermutes<T>(s: seq<T>, key: T -> real)
    ensures multiset(SortBy(s, key)) == multiset(s)
  {
    if s != [] {
      SortByPermutes(s[..|s| - 1], key);
      InsertPermutes(SortBy(s[..|s| - 1], key), s[|s| - 1], key);
      assert s == s[..|s| - 1] + [s[|s| - 1]];
    }
  }

  lemma {:induction false} InsertSorted<T>(t: seq<T>, x: T, key: T -> real)
    requires SortedBy(t, key)
    ensures SortedBy(Insert(t, x, key), key)
  {
    if t == [] || key(t[|t| - 1]) <= key(x) {
    } else {
      var last := t[|t| - 1];
      InsertSorted(t[..|t| - 1], x, key);
      InsertPermutes(t[..|t| - 1], x, key);
      var r := Insert(t[..|t| - 1], x, key);
      forall e | e in r ensures key(e) <= key(last) {
        assert e in multiset(r);
        assert e == x || e in multiset(t[..|t| - 1]);
      }
    }
  }

  /** The specification's result is ordered by key. */
  lemma {:induction false} SortBySorted<T>(s: seq<T>, key: T -> real)
    ensures SortedBy(SortBy(s, key), key)
  {
    if s != [] {
      SortBySorted(s[..|s| - 1], key);
      InsertSorted(SortBy(s[..|s| - 1], key), s[|s| - 1], key);
    }
  }

  /** Inserting after every element of no larger key appends. */
  lemma {:induction false} InsertAtEnd<T>(t: seq<T>, x: T, key: T -> real)
    requires forall i :: 0 <= i < |t| ==> key(t[i]) <= key(x)
    ensures Insert(t, x, key) == t + [x]
  {
  }

  /** When `x` goes at the end, it goes at the end of any selection too. */
  lemma InsertFilterAtEnd<T>(t: seq<T>, x: T, key: T -> real, p: T -> bool)
    requires SortedBy(t, key)
    requires t == [] || key(t[|t| - 1]) <= key(x)
    ensures Filter(Insert(t, x, key), p) == if p(x) then Insert(Filter(t, p), x, key) else Filter(t, p)
  {
    var f := Filter(t, p);
    assert Insert(t, x, key) == t + [x];
    FilterSnoc(t, x, p);
    if p(x) {
      FilterBelow(t, x, key, p);
      InsertAtEnd(f, x, key);
    }
  }

  /** A selection keeps the bound the last key of a sorted sequence gives. */
  lemma FilterBelow<T>(t: seq<T>, x: T, key: T -> real, p: T -> bool)
    requires SortedBy(t, key)
    requires t == [] || key(t[|t| - 1]) <= key(x)
    ensures forall i :: 0 <= i < |Filter(t, p)| ==> key(Filter(t, p)[i]) <= key(x)
  {
    var f := Filter(t, p);
    forall i | 0 <= i < |f| ensures key(f[i]) <= key(x) {
      assert f[i] in f;
      FilterMember(t, p, f[i]);
      var j :| 0 <= j < |t| && t[j] == f[i];
      assert key(t[j]) <= key(t[|t| - 1]);
    }
  }

  /** Insertion commutes with selecting a sub-sequence by any property. */
  lemma {:induction false} InsertFilter<T>(t: seq<T>, x: T, key: T -> real, p: T -> bool)
    requires SortedBy(t, key)
    ensures Filter(Insert(t, x, key), p) == if p(x) then Insert(Filter(t, p), x, key) else Filter(t, p)
  {
    if t == [] || key(t[|t| - 1]) <= key(x) {
      InsertFilterAtEnd(t, x, key, p);
    } else {
      var init, last := t[..|t| - 1], t[|t| - 1];
      assert t == init + [last];
      assert Insert(t, x, key) == Insert(init, x, key) + [last];
      assert SortedBy(init, key);
      InsertFilter(init, x, key, p);
      FilterSnoc(Insert(init, x, key), last, p);
      FilterSnoc(init, last, p);
      var f, g := Filter(t, p), Filter(init, p);
      if p(x) && p(last) {
        assert f == g + [last];
        assert (g + [last])[..|g + [last]| - 1] == g;
        assert Insert(f, x, key) == Insert(g, x, key) + [last];
      } else if p(x) {
        assert f == g;
      } else {
        assert Filter(Insert(init, x, key), p) == g;
      }
    }
  }

  /** Sorting and then selecting gives the same as selecting and then sorting. */
  lemma {:induction false} SortCommutesWithFilter<T>(s: seq<T>, key: T -> real, p: T -> bool)
    ensures Filter(SortBy(s, key), p) == SortBy(Filter(s, p), key)
  {
    if s != [] {
      var init, last := s[..|s| - 1], s[|s| - 1];
      var sorted := SortBy(init, key);
      var f := Filter(init, p);
      assert SortBy(s, key) == Insert(sorted, last, key);
      assert Filter(sorted, p) == SortBy(f, key) by {
        SortCommutesWithFilter(init, key, p);
      }
      assert Filter(Insert(sorted, last, key), p) == if p(last) then Insert(Filter(sorted, p), last, key) else Filter(sorted, p) by {
        SortBySorted(init, key);
        InsertFilter(sorted, last, key, p);
      }
      assert Filter(s, p) == f + if p(last) then [last] else [] by {
        assert s == init + [last];
        FilterSnoc(init, last, p);
      }
      if p(last) {
        assert SortBy(f + [last], key) == Insert(SortBy(f, key), last, key) by {
          assert (f + [last])[..|f + [last]| - 1] == f;
        }
      } else {
        assert f + [] == f;
      }
    }
  }

  /** A sequence already in order is left as it is. */
  lemma {:induction false} SortOfSorted<T>(s: seq<T>, key: T -> real)
    requires SortedBy(s, key)
    ensures SortBy(s, key) == s
  {
    if s != [] {
      var init := s[..|s| - 1];
      SortOfSorted(init, key);
      assert s == init + [s[|s| - 1]];
    }
  }

  /** Sorting twice is sorting once. */
  lemma SortIdempotent<T>(s: seq<T>, key: T -> real)
    ensures SortBy(SortBy(s, key), key) == SortBy(s, key)
  {
    SortBySorted(s, key);
    SortOfSorted(SortBy(s, key), key);
  }

  /** Stability: elements with equal keys keep their original relative order. */
  lemma SortIsStable<T>(s: seq<T>, key: T -> real, k: real)
    ensures Filter(SortBy(s, key), KeyIs(key, k)) == Filter(s, KeyIs(key, k))
  {
    SortCommutesWithFilter(s, key, KeyIs(key, k));
    SortOfSorted(Filter(s, KeyIs(key, k)), key);
  }

  /** The key of the last element occurs. */
  lemma LastKeyOccurs<T>(u: seq<T>, key: T -> real)
    requires u != []
    ensures Filter(u, KeyIs(key, key(u[|u| - 1]))) != []
  {
  }

  /** In an ordered sequence, any key that occurs is at most the last key. */
  lemma MaxKeyIsLast<T>(u: seq<T>, key: T -> real, k: real)
    requires SortedBy(u, key) && u != []
    requires Filter(u, KeyIs(key, k)) != []
    ensures k <= key(u[|u| - 1])
  {
    var f := Filter(u, KeyIs(key, k));
    assert f[0] in f;
    FilterMember(u, KeyIs(key, k), f[0]);
    var j :| 0 <= j < |u| && u[j] == f[0];
    assert key(u[j]) == k;
    assert key(u[j]) <= key(u[|u| - 1]);
  }

  /** Two ordered sequences with the same elements, in the same order within each
      key, are equal. */
  lemma {:induction false} SortedByKeysEqual<T>(t: seq<T>, u: seq<T>, key: T -> real)
    requires SortedBy(t, key) && SortedBy(u, key)
    requires forall k :: Filter(t, KeyIs(key, k)) == Filter(u, KeyIs(key, k))
    ensures t == u
    decreases |t| + |u|
  {
    if t == [] && u == [] {
    } else if t == [] {
      LastKeyOccurs(u, key);
      assert false;
    } else if u == [] {
      LastKeyOccurs(t, key);
      assert false;
    } else {
      var t', x := t[..|t| - 1], t[|t| - 1];
      var u', y := u[..|u| - 1], u[|u| - 1];
      assert t == t' + [x] && u == u' + [y];
      LastKeysAgree(t, u, key);
      forall k ensures Filter(t', KeyIs(key, k)) == Filter(u', KeyIs(key, k)) && (k == key(x) ==> x == y) {
        assert Filter(t, KeyIs(key, k)) == Filter(u, KeyIs(key, k));
        DropLast(t', x, u', y, key, k);
      }
      assert Filter(t, KeyIs(key, key(x))) == Filter(u, KeyIs(key, key(x)));
      assert x == y;
      SortedByKeysEqual(t', u', key);
    }
  }

  /** Two ordered sequences with the same elements under every key end with the
      same key. */
  lemma LastKeysAgree<T>(t: seq<T>, u: seq<T>, key: T -> real)
    requires t != [] && u != [] && SortedBy(t, key) && SortedBy(u, key)
    requires forall k :: Filter(t, KeyIs(key, k)) == Filter(u, KeyIs(key, k))
    ensures key(t[|t| - 1]) == key(u[|u| - 1])
  {
    var kx, ky := key(t[|t| - 1]), key(u[|u| - 1]);
    LastKeyOccurs(t, key);
    LastKeyOccurs(u, key);
    assert Filter(u, KeyIs(key, kx)) == Filter(t, KeyIs(key, kx));
    assert Filter(t, KeyIs(key, ky)) == Filter(u, KeyIs(key, ky));
    MaxKeyIsLast(u, key, kx);
    MaxKeyIsLast(t, key, ky);
  }

  /** Removing last elements with equal keys from sequences with equal selections
      under `k` leaves equal selections, and the removed elements are equal when
      they have key `k`. */
  lemma DropLast<T>(t': seq<T>, x: T, u': seq<T>, y: T, key: T -> real, k: real)
    requires key(x) == key(y)
    requires Filter(t' + [x], KeyIs(key, k)) == Filter(u' + [y], KeyIs(key, k))
    ensures Filter(t', KeyIs(key, k)) == Filter(u', KeyIs(key, k)) && (k == key(x) ==> x == y)
  {
    FilterSnoc(t', x, KeyIs(key, k));
    FilterSnoc(u', y, KeyIs(key, k));
    var ft, fu := Filter(t', KeyIs(key, k)), Filter(u', KeyIs(key, k));
    if k == key(x) {
      assert ft + [x] == fu + [y];
      assert (ft + [x])[..|ft|] == ft;
      assert (fu + [y])[..|fu|] == fu;
      assert (ft + [x])[|ft|] == x;
    } else {
      assert !KeyIs(key, k)(x) && !KeyIs(key, k)(y);
      assert ft + [] == ft && fu + [] == fu;
    }
  }

  /** Any stable ordering of `s` by key, whatever algorithm produced it, is the
      specification's. */
  lemma StableSortIsUnique<T>(s: seq<T>, t: seq<T>, key: T -> real)
    requires SortedBy(t, key)
    requires forall k :: Filter(t, KeyIs(key, k)) == Filter(s, KeyIs(key, k))
    ensures t == SortBy(s, key)
  {
    SortBySorted(s, key);
    forall k ensures Filter(t, KeyIs(key, k)) == Filter(SortBy(s, key), KeyIs(key, k)) {
      SortIsStable(s, key, k);
    }
    SortedByKeysEqual(t, SortBy(s, key), key);
  }

  /** Where insertion puts `x`: after the last element with a key no larger than
      its own, when every element after that point has a larger key. */
  lemma {:induction false} InsertPosition<T>(t: seq<T>, j: nat, x: T, key: T -> real)
    requires j <= |t|
    requires j == 0 || key(t[j - 1]) <= key(x)
    requires forall k :: j <= k < |t| ==> key(t[k]) > key(x)
    ensures Insert(t, x, key) == t[..j] + [x] + t[j..]
    decreases |t|
  {
    if j == |t| {
      assert t[..j] == t && t[j..] == [];
    } else {
      var init := t[..|t| - 1];
      assert init[..j] == t[..j];
      assert forall k :: j <= k < |init| ==> key(init[k]) > key(x);
      InsertPosition(init, j, x, key);
      assert init[j..] + [t[|t| - 1]] == t[j..];
    }
  }

  /** Moves `a[i]` left past every larger element of the prefix `a[..i]`. */
  method InsertInPlace<T>(a: array<T>, i: nat, key: T -> real)
    requires i < a.Length
    modifies a
    ensures a[..i + 1] == Insert(old(a[..i]), old(a[i]), key)
    ensures a[i + 1..] == old(a[i + 1..])
  {
    ghost var t := a[..i];
    var x := a[i];
    var j := i;
    while j > 0 && key(a[j - 1]) > key(x)
      invariant 0 <= j <= i
      invariant forall k :: 0 <= k < j ==> a[k] == t[k]
      invariant forall k :: j < k <= i ==> a[k] == t[k - 1]
      invariant forall k :: i < k < a.Length ==> a[k] == old(a[k])
      invariant forall k :: j <= k < i ==> key(t[k]) > key(x)
    {
      a[j] := a[j - 1];
      j := j - 1;
    }
    a[j] := x;
    InsertPosition(t, j, x, key);
    assert a[..i + 1] == t[..j] + [x] + t[j..];
  }

  /** Sorts `a` in place, stably, by `key`: an insertion sort. */
  method SortInPlace<T>(a: array<T>, key: T -> real)
    modifies a
    ensures a[..] == SortBy(old(a[..]), key)
  {
    var i := 0;
    while i < a.Length
      invariant 0 <= i <= a.Length
      invariant a[..i] == SortBy(old(a[..i]), key)
      invariant a[i..] == old(a[i..])
    {
      InsertInPlace(a, i, key);
      assert old(a[..i + 1]) == old(a[..i]) + [old(a[i])];
      i := i + 1;
    }
    assert a[..] == a[..a.Length];
    assert old(a[..]) == old(a[..a.Length]);
  }

  /** `sortMessagesByTimestamp`: sorts the caller's array in place, stably, by the
      numeric value of each message's timestamp. */
  method SortMessagesByTimestamp(a: array<Message>)
    modifies a
    ensures a[..] == SortBy(old(a[..]), Key)
  {
    SortInPlace(a, Key);
  }
}
