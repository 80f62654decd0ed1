// Stable sorting by a string key, and exactly when two lists sort to the same list.
module StableSort {
  import opened Common
  import opened Ordering

  function KeyLe<T>(key: T -> string): (T, T) -> bool {
    (a, b) => StringLe(key(a), key(b))
  }

  function SortByKey<T>(key: T -> string, s: seq<T>): seq<T> {
    Sort(KeyLe(key), s)
  }

  // The elements with one key, in order.
  function WithKey<T>(key: T -> string, s: seq<T>, k: string): seq<T> {
    if s == [] then []
    else (if key(s[0]) == k then [s[0]] else []) + WithKey(key, s[1..], k)
  }

  lemma KeyLeTotal<T(!new)>(key: T -> string)
    ensures TotalPreorder(KeyLe(key))
  {
    StringOrder();
  }

  lemma {:induction false} InsertWithKey<T>(key: T -> string, x: T, s: seq<T>, k: string)
    ensures WithKey(key, Insert(KeyLe(key), x, s), k) == (if key(x) == k then [x] else []) + WithKey(key, s, k)
  {
    if s != [] && !KeyLe(key)(x, s[0]) {
      InsertWithKey(key, x, s[1..], k);
      StringLeTotal(key(x), key(s[0]));
      assert key(x) != key(s[0]) by { StringLeReflexive(key(x)); }
    }
  }

  lemma {:induction false} StringLeReflexive(a: string)
    ensures StringLe(a, a)
  {
    StringLeTotal(a, a);
  }

  // Sorting keeps the elements of each key in order.
  lemma {:induction false} SortWithKey<T>(key: T -> string, s: seq<T>, k: string)
    ensures WithKey(key, SortByKey(key, s), k) == WithKey(key, s, k)
  {
    if s != [] {
      SortWithKey(key, s[1..], k);
      InsertWithKey(key, s[0], SortByKey(key, s[1..]), k);
    }
  }

  lemma {:induction false} WithKeyMember<T>(key: T -> string, s: seq<T>, k: string)
    requires WithKey(key, s, k) != []
    ensures exists i :: 0 <= i < |s| && key(s[i]) == k
  {
    if key(s[0]) != k {
      WithKeyMember(key, s[1..], k);
      var i :| 0 <= i < |s[1..]| && key(s[1..][i]) == k;
      assert key(s[i + 1]) == k;
    }
  }

  lemma SortedHeads<T>(key: T -> string, a: seq<T>, b: seq<T>)
    requires SortedBy(KeyLe(key), b) && a != []
    requires WithKey(key, a, key(a[0])) == WithKey(key, b, key(a[0]))
    ensures b != [] && StringLe(key(b[0]), key(a[0]))
  {
    assert WithKey(key, a, key(a[0])) != [];
    WithKeyMember(key, b, key(a[0]));
    var i :| 0 <= i < |b| && key(b[i]) == key(a[0]);
    StringLeReflexive(key(b[0]));
    assert i > 0 ==> KeyLe(key)(b[0], b[i]);
  }

  // A list sorted by key is determined by its elements of each key, in order.
  lemma {:induction false} SortedByClasses<T>(key: T -> string, a: seq<T>, b: seq<T>)
    requires SortedBy(KeyLe(key), a) && SortedBy(KeyLe(key), b)
    requires forall k :: WithKey(key, a, k) == WithKey(key, b, k)
    ensures a == b
  {
    if a == [] {
      if b != [] { SortedHeads(key, b, a); }
    } else {
      SortedHeads(key, a, b);
      SortedHeads(key, b, a);
      StringLeTotal(key(a[0]), key(b[0]));
      assert WithKey(key, a, key(a[0]))[0] == a[0];
      assert WithKey(key, b, key(a[0]))[0] == b[0];
      forall k ensures WithKey(key, a[1..], k) == WithKey(key, b[1..], k) {
        TailWithKey(key, a, k);
        TailWithKey(key, b, k);
      }
      SortedByClasses(key, a[1..], b[1..]);
    }
  }

  lemma TailWithKey<T>(key: T -> string, s: seq<T>, k: string)
    requires s != []
    ensures WithKey(key, s[1..], k) == WithKey(key, s, k)[(if key(s[0]) == k then 1 else 0)..]
  {
  }

  ghost predicate SameClasses<T(!new)>(key: T -> string, a: seq<T>, b: seq<T>) {
    forall k :: WithKey(key, a, k) == WithKey(key, b, k)
  }

  lemma SortByKeySorted<T(!new)>(key: T -> string, s: seq<T>)
    ensures SortedBy(KeyLe(key), SortByKey(key, s)) && SameClasses(key, SortByKey(key, s), s)
  {
    KeyLeTotal(key);
    SortSorted(KeyLe(key), s);
    forall k ensures WithKey(key, SortByKey(key, s), k) == WithKey(key, s, k) {
      SortWithKey(key, s, k);
    }
  }

  // Two lists sort to the same list exactly when each key has the same elements in the same order.
  lemma SortByKeyExact<T(!new)>(key: T -> string, a: seq<T>, b: seq<T>)
    ensures SortByKey(key, a) == SortByKey(key, b) <==> SameClasses(key, a, b)
  {
    var sa, sb := SortByKey(key, a), SortByKey(key, b);
    SortByKeySorted(key, a);
    SortByKeySorted(key, b);
    if SameClasses(key, a, b) {
      SortedByClasses(key, sa, sb);
    } else {
      assert sa == sb ==> SameClasses(key, sa, sb);
    }
  }

  lemma {:induction false} WithKeyConcat<T>(key: T -> string, a: seq<T>, b: seq<T>, k: string)
    ensures WithKey(key, a + b, k) == WithKey(key, a, k) + WithKey(key, b, k)
  {
    if a == [] {
      assert a + b == b;
    } else {
      var head := if key(a[0]) == k then [a[0]] else [];
      WithKeyConcat(key, a[1..], b, k);
      assert (a + b)[1..] == a[1..] + b;
      assert WithKey(key, a + b, k) == head + (WithKey(key, a[1..], k) + WithKey(key, b, k));
    }
  }

  lemma PairWithKey<T>(key: T -> string, x: T, y: T, k: string)
    ensures WithKey(key, [x, y], k) == (if key(x) == k then [x] else []) + if key(y) == k then [y] else []
  {
    var pair, last := [x, y], [y];
    assert last[1..] == [] && WithKey(key, last, k) == (if key(y) == k then [y] else []) + WithKey(key, last[1..], k);
    assert pair[1..] == last && WithKey(key, pair, k) == (if key(x) == k then [x] else []) + WithKey(key, pair[1..], k);
  }

  lemma SwapWithKey<T>(key: T -> string, before: seq<T>, x: T, y: T, after: seq<T>, k: string)
    ensures WithKey(key, before + [x, y] + after, k) ==
      WithKey(key, before, k) + WithKey(key, [x, y], k) + WithKey(key, after, k)
  {
    WithKeyConcat(key, before + [x, y], after, k);
    WithKeyConcat(key, before, [x, y], k);
  }

  // Exchanging neighbours changes the sorted list exactly when they differ and have the same key.
  lemma SwapExact<T(!new)>(key: T -> string, before: seq<T>, x: T, y: T, after: seq<T>)
    ensures SortByKey(key, before + [x, y] + after) == SortByKey(key, before + [y, x] + after) <==>
      (x == y || key(x) != key(y))
  {
    var a, b := before + [x, y] + after, before + [y, x] + after;
    SortByKeyExact(key, a, b);
    if x == y || key(x) != key(y) {
      forall k ensures WithKey(key, a, k) == WithKey(key, b, k) {
        SwapWithKey(key, before, x, y, after, k);
        SwapWithKey(key, before, y, x, after, k);
        PairWithKey(key, x, y, k);
        PairWithKey(key, y, x, k);
      }
      assert SameClasses(key, a, b);
    } else {
      var k := key(x);
      SwapWithKey(key, before, x, y, after, k);
      SwapWithKey(key, before, y, x, after, k);
      PairWithKey(key, x, y, k);
      PairWithKey(key, y, x, k);
      var n := |WithKey(key, before, k)|;
      assert WithKey(key, a, k)[n] == x && WithKey(key, b, k)[n] == y;
      assert !SameClasses(key, a, b);
    }
  }

  // ---- the array sort: decorate with key and index, sort, undecorate ----

  datatype Indexed = Indexed(i: nat, k: string)

  predicate IndexedLe(a: Indexed, b: Indexed) {
    if a.k == b.k then a.i <= b.i else StringLe(a.k, b.k)
  }

  function Decorate<T>(key: T -> string, arr: seq<T>, from: nat): seq<Indexed>
    requires from <= |arr|
    decreases |arr| - from
  {
    if from == |arr| then [] else [Indexed(from, key(arr[from]))] + Decorate(key, arr, from + 1)
  }

  predicate InRange<T>(key: T -> string, arr: seq<T>, from: nat, xs: seq<Indexed>) {
    forall x :: x in xs ==> from <= x.i < |arr| && x.k == key(arr[x.i])
  }

  function Undecorate<T>(key: T -> string, arr: seq<T>, xs: seq<Indexed>): (r: seq<T>)
    requires InRange(key, arr, 0, xs)
    ensures |r| == |xs| && forall j :: 0 <= j < |xs| ==> r[j] == arr[xs[j].i]
  {
    seq(|xs|, j requires 0 <= j < |xs| => arr[xs[j].i])
  }

  lemma {:induction false} InsertDecorated<T>(key: T -> string, arr: seq<T>, from: nat, xs: seq<Indexed>)
    requires from < |arr| && InRange(key, arr, from + 1, xs)
    ensures var r := Insert(IndexedLe, Indexed(from, key(arr[from])), xs);
      && InRange(key, arr, from, r)
      && Undecorate(key, arr, r) == Insert(KeyLe(key), arr[from], Undecorate(key, arr, xs))
  {
    var x := Indexed(from, key(arr[from]));
    var r := Insert(IndexedLe, x, xs);
    if xs == [] {
      assert Undecorate(key, arr, xs) == [];
    } else {
      var t := Undecorate(key, arr, xs);
      assert xs[0] in xs;
      StringLeReflexive(x.k);
      assert IndexedLe(x, xs[0]) <==> KeyLe(key)(arr[from], t[0]);
      if IndexedLe(x, xs[0]) {
        assert r == [x] + xs;
        assert Undecorate(key, arr, r) == [arr[from]] + t;
      } else {
        InsertDecorated(key, arr, from, xs[1..]);
        assert Undecorate(key, arr, xs[1..]) == t[1..];
        var more := Insert(IndexedLe, x, xs[1..]);
        assert r == [xs[0]] + more;
        assert Undecorate(key, arr, r) == [t[0]] + Undecorate(key, arr, more);
      }
    }
  }

  lemma {:induction false} SortDecorated<T>(key: T -> string, arr: seq<T>, from: nat)
    requires from <= |arr|
    ensures var xs := Sort(IndexedLe, Decorate(key, arr, from));
      InRange(key, arr, from, xs) && Undecorate(key, arr, xs) == SortByKey(key, arr[from..])
    decreases |arr| - from
  {
    if from < |arr| {
      SortDecorated(key, arr, from + 1);
      InsertDecorated(key, arr, from, Sort(IndexedLe, Decorate(key, arr, from + 1)));
      assert arr[from..][1..] == arr[from + 1..];
      assert Decorate(key, arr, from)[1..] == Decorate(key, arr, from + 1);
    }
  }

  lemma {:induction false} DecorateAt<T>(key: T -> string, arr: seq<T>, from: nat, j: nat)
    requires from <= j < |arr|
    ensures |Decorate(key, arr, from)| == |arr| - from
    ensures Decorate(key, arr, from)[j - from] == Indexed(j, key(arr[j]))
    decreases |arr| - from
  {
    if from < j {
      DecorateAt(key, arr, from + 1, j);
    } else if from + 1 < |arr| {
      DecorateAt(key, arr, from + 1, from + 1);
    }
  }

  // Sorting keys paired with positions is the stable sort by key.
  method StableSortArray<T>(key: T -> string, arr: seq<T>) returns (r: seq<T>)
    ensures r == SortByKey(key, arr)
  {
    if |arr| == 0 {
      return arr;
    }
    var indexed := seq(|arr|, i requires 0 <= i < |arr| => Indexed(i, key(arr[i])));
    forall j | 0 <= j < |arr| ensures |Decorate(key, arr, 0)| == |arr| && indexed[j] == Decorate(key, arr, 0)[j] {
      DecorateAt(key, arr, 0, j);
    }
    DecorateAt(key, arr, 0, 0);
    assert indexed == Decorate(key, arr, 0);
    SortDecorated(key, arr, 0);
    assert arr[0..] == arr;
    indexed := Sort(IndexedLe, indexed);
    r := Undecorate(key, arr, indexed);
  }
}
