/**
 * The tidying the stub generator applies to the extracted methods before it
 * renders them: drop exact repeats, keeping the first occurrence, then sort
 * stably with `__init__` first and the rest by name.
 */
module StubOrder {

  import opened Strings
  import opened Scanner

  /** No method occurs twice. */
  predicate NoDup(ms: seq<Method>) {
    forall i, j :: 0 <= i < j < |ms| ==> ms[i] != ms[j]
  }

  /** The position of the first occurrence of `m`. */
  function First(ms: seq<Method>, m: Method): (k: nat)
    requires m in ms
    ensures k < |ms| && ms[k] == m && m !in ms[..k]
  {
    if ms[0] == m then 0
    else
      var k := First(ms[1..], m) + 1;
      assert ms[..k] == [ms[0]] + ms[1..][..k - 1];
      k
  }

  /**
   * The methods with exact repeats dropped, the first occurrence kept: the
   * loop over the methods with a `seen` set, where the set is always the set
   * of methods kept so far.
   */
  function Dedup(ms: seq<Method>): (r: seq<Method>)
    ensures forall m :: m in r <==> m in ms
    ensures NoDup(r)
    decreases |ms|
  {
    if ms == [] then []
    else
      var init := ms[..|ms| - 1];
      var m := ms[|ms| - 1];
      var d := Dedup(init);
      assert ms == init + [m];
      if m in d then d else d + [m]
  }

  /** A first occurrence in a prefix is the first occurrence in the whole list. */
  lemma FirstOfPrefix(ms: seq<Method>, n: nat, m: Method)
    requires n <= |ms| && m in ms[..n]
    ensures First(ms[..n], m) == First(ms, m)
  {
    var k := First(ms[..n], m);
    var j := First(ms, m);
    assert ms[..n][..k] == ms[..k];
    assert forall t :: 0 <= t < k ==> ms[..k][t] == ms[t];
    assert forall t :: 0 <= t < j ==> ms[..j][t] == ms[t];
  }

  /** The kept methods come in the order of their first occurrences. */
  lemma {:induction false} DedupOrder(ms: seq<Method>, i: nat, j: nat)
    requires i < j < |Dedup(ms)|
    ensures First(ms, Dedup(ms)[i]) < First(ms, Dedup(ms)[j])
    decreases |ms|
  {
    var init := ms[..|ms| - 1];
    var m := ms[|ms| - 1];
    var d := Dedup(init);
    assert ms == init + [m];
    assert init == ms[..|ms| - 1];
    var r := Dedup(ms);
    if j < |d| {
      assert r[i] == d[i] && r[j] == d[j];
      DedupOrder(init, i, j);
      FirstOfPrefix(ms, |ms| - 1, d[i]);
      FirstOfPrefix(ms, |ms| - 1, d[j]);
    } else {
      assert m !in d && r[j] == m && r[i] == d[i];
      assert m !in init;
      FirstOfPrefix(ms, |ms| - 1, d[i]);
      assert forall t :: 0 <= t < |ms| - 1 ==> ms[t] == init[t];
    }
  }

  /** A list with no repeats is left as it is. */
  lemma {:induction false} DedupNoDup(ms: seq<Method>)
    requires NoDup(ms)
    ensures Dedup(ms) == ms
    decreases |ms|
  {
    if ms != [] {
      var init := ms[..|ms| - 1];
      var m := ms[|ms| - 1];
      assert NoDup(init);
      DedupNoDup(init);
      assert m !in init;
      assert ms == init + [m];
    }
  }

  /** Dropping repeats twice drops nothing more. */
  lemma DedupIdempotent(ms: seq<Method>)
    ensures Dedup(Dedup(ms)) == Dedup(ms)
  {
    DedupNoDup(Dedup(ms));
  }

  /** The first component of the sort key: `__init__` sorts before every other name. */
  function Rank(m: Method): (k: nat)
    ensures k == 0 <==> m.name == "__init__"
  {
    if m.name == "__init__" then 0 else 1
  }

  /** `(0 if name == "__init__" else 1, name)` of `a` is below that of `b`, as Python compares tuples. */
  predicate KeyLess(a: Method, b: Method) {
    Rank(a) < Rank(b) || (Rank(a) == Rank(b) && LexLess(a.name, b.name))
  }

  lemma KeyLessSameName(a: Method, b: Method)
    requires a.name == b.name
    ensures !KeyLess(a, b)
  {
    LexLessIrreflexive(a.name);
  }

  lemma KeyLessTransitive(a: Method, b: Method, c: Method)
    requires KeyLess(a, b) && KeyLess(b, c)
    ensures KeyLess(a, c)
  {
    if Rank(a) == Rank(b) == Rank(c) {
      LexLessTransitive(a.name, b.name, c.name);
    }
  }

  /** Methods with different names have different keys. */
  lemma KeyLessConnected(a: Method, b: Method)
    requires a.name != b.name
    ensures KeyLess(a, b) || KeyLess(b, a)
  {
    LexLessConnected(a.name, b.name);
  }

  /** No method is followed by one with a smaller key. */
  predicate Sorted(ms: seq<Method>) {
    forall i, j :: 0 <= i < j < |ms| ==> !KeyLess(ms[j], ms[i])
  }

  /** The methods called `n`, in their order in the list. */
  function Named(ms: seq<Method>, n: string): (r: seq<Method>)
    ensures |r| <= |ms|
    ensures forall m :: m in r <==> m in ms && m.name == n
  {
    if ms == [] then []
    else (if ms[0].name == n then [ms[0]] else []) + Named(ms[1..], n)
  }

  lemma {:induction false} NamedAppend(a: seq<Method>, b: seq<Method>, n: string)
    ensures Named(a + b, n) == Named(a, n) + Named(b, n)
  {
    if a == [] {
      assert a + b == b;
    } else {
      assert (a + b)[1..] == a[1..] + b;
      NamedAppend(a[1..], b, n);
    }
  }

  /** `m` placed in front of the first method whose key is not below its own. */
  function Insert(m: Method, ms: seq<Method>): (r: seq<Method>)
    ensures multiset(r) == multiset(ms) + multiset{m}
  {
    if ms == [] || !KeyLess(ms[0], m) then [m] + ms
    else
      assert ms == [ms[0]] + ms[1..];
      [ms[0]] + Insert(m, ms[1..])
  }

  lemma {:induction false} InsertSorted(m: Method, ms: seq<Method>)
    requires Sorted(ms)
    ensures Sorted(Insert(m, ms))
  {
    if ms != [] && KeyLess(ms[0], m) {
      assert Sorted(ms[1..]);
      InsertSorted(m, ms[1..]);
      var r := Insert(m, ms);
      var t := Insert(m, ms[1..]);
      forall j | 0 < j < |r|
        ensures !KeyLess(r[j], r[0])
      {
        assert r[j] == t[j - 1];
        assert t[j - 1] in multiset(t);
        if r[j] == m {
          assert KeyLess(ms[0], m);
          if KeyLess(m, ms[0]) {
            KeyLessTransitive(m, ms[0], m);
            KeyLessSameName(m, m);
          }
        } else {
          assert r[j] in ms[1..];
        }
      }
    } else if ms != [] {
      forall j | 0 < j < |ms| + 1
        ensures !KeyLess(([m] + ms)[j], m)
      {
        var e := ms[j - 1];
        assert ([m] + ms)[j] == e;
        if j > 1 && KeyLess(e, m) && e.name != ms[0].name {
          assert !KeyLess(e, ms[0]);
          KeyLessConnected(e, ms[0]);
          KeyLessTransitive(ms[0], e, m);
        }
      }
    }
  }

  lemma NamedCons(x: Method, ms: seq<Method>, n: string)
    ensures Named([x] + ms, n) == (if x.name == n then [x] else []) + Named(ms, n)
  {
    assert ([x] + ms)[1..] == ms;
  }

  /** Two fronts, one of them empty, can be put down in either order. */
  lemma SwapFront(p: seq<Method>, q: seq<Method>, r: seq<Method>)
    requires p == [] || q == []
    ensures p + (q + r) == q + (p + r)
  {
    if p == [] {
      assert p + (q + r) == q + r;
      assert p + r == r;
    } else {
      assert q + r == r;
      assert q + (p + r) == p + r;
    }
  }

  /** Inserting `m` only adds `m` to the methods of its own name, in front of them. */
  lemma {:induction false} InsertNamed(m: Method, ms: seq<Method>, n: string)
    ensures Named(Insert(m, ms), n) == (if m.name == n then [m] else []) + Named(ms, n)
  {
    if ms == [] || !KeyLess(ms[0], m) {
      NamedCons(m, ms, n);
    } else {
      var x := ms[0];
      var t := Insert(m, ms[1..]);
      assert Insert(m, ms) == [x] + t;
      assert ms == [x] + ms[1..];
      var hx := if x.name == n then [x] else [];
      var hm := if m.name == n then [m] else [];
      NamedCons(x, t, n);
      NamedCons(x, ms[1..], n);
      InsertNamed(m, ms[1..], n);
      if x.name == n && m.name == n {
        KeyLessSameName(x, m);
      }
      SwapFront(hx, hm, Named(ms[1..], n));
    }
  }

  /** Python's stable `list.sort` with the key `(0 if name == "__init__" else 1, name)`. */
  function Sort(ms: seq<Method>): (r: seq<Method>)
    ensures multiset(r) == multiset(ms)
  {
    if ms == [] then []
    else
      assert ms == [ms[0]] + ms[1..];
      Insert(ms[0], Sort(ms[1..]))
  }

  lemma {:induction false} SortSorted(ms: seq<Method>)
    ensures Sorted(Sort(ms))
  {
    if ms != [] {
      SortSorted(ms[1..]);
      InsertSorted(ms[0], Sort(ms[1..]));
    }
  }

  /** Stability: methods with equal keys, that is equal names, keep their relative order. */
  lemma {:induction false} SortStable(ms: seq<Method>, n: string)
    ensures Named(Sort(ms), n) == Named(ms, n)
  {
    if ms != [] {
      SortStable(ms[1..], n);
      InsertNamed(ms[0], Sort(ms[1..]), n);
    }
  }

  /** The first of a sorted list has a key no other member of it is below. */
  lemma SortedHead(s: seq<Method>, m: Method)
    requires Sorted(s) && s != [] && m in s
    ensures !KeyLess(m, s[0])
  {
    var k :| 0 <= k < |s| && s[k] == m;
    if k == 0 {
      KeyLessSameName(m, m);
    }
  }

  /** Equal per-name orders of two sorted lists start with the same name. */
  lemma SameHeadName(a: seq<Method>, b: seq<Method>)
    requires Sorted(a) && Sorted(b) && a != [] && b != []
    requires a[0] in b && b[0] in a
    ensures a[0].name == b[0].name
  {
    SortedHead(b, a[0]);
    SortedHead(a, b[0]);
    if a[0].name != b[0].name {
      KeyLessConnected(a[0], b[0]);
    }
  }

  /** Equal per-name orders of two sorted lists start with the same method. */
  lemma SameHead(a: seq<Method>, b: seq<Method>)
    requires Sorted(a) && Sorted(b) && a != [] && b != []
    requires forall n :: Named(a, n) == Named(b, n)
    ensures a[0] == b[0]
  {
    var x, y := a[0], b[0];
    var na, nb := Named(a, x.name), Named(b, y.name);
    assert Named(b, x.name) == na && Named(a, y.name) == nb;
    NamedHead(a);
    NamedHead(b);
    SameHeadName(a, b);
  }

  /** The first method of a list is the first of its name. */
  lemma NamedHead(s: seq<Method>)
    requires s != []
    ensures s[0] in Named(s, s[0].name) && Named(s, s[0].name)[0] == s[0]
  {
    assert s == [s[0]] + s[1..];
    NamedCons(s[0], s[1..], s[0].name);
  }

  /** Equal per-name orders stay equal once a common first method is taken off. */
  lemma SameTails(a: seq<Method>, b: seq<Method>)
    requires a != [] && b != [] && a[0] == b[0]
    requires forall n :: Named(a, n) == Named(b, n)
    ensures forall n :: Named(a[1..], n) == Named(b[1..], n)
  {
    assert a == [a[0]] + a[1..] && b == [b[0]] + b[1..];
    forall n
      ensures Named(a[1..], n) == Named(b[1..], n)
    {
      var k := if a[0].name == n then 1 else 0;
      NamedCons(a[0], a[1..], n);
      NamedCons(b[0], b[1..], n);
      assert Named(a[1..], n) == Named(a, n)[k..];
      assert Named(b[1..], n) == Named(b, n)[k..];
    }
  }

  /** A list with no method of some name has none of it in any list with the same per-name order. */
  lemma SameEmpty(a: seq<Method>, b: seq<Method>)
    requires a == [] && b != []
    ensures Named(a, b[0].name) != Named(b, b[0].name)
  {
    assert b[0] in Named(b, b[0].name);
  }

  /**
   * A sorted list that keeps the relative order of every name's methods is
   * the list `Sort` produces: a stable sort by this key has only one result.
   */
  lemma {:induction false} StableSortUnique(a: seq<Method>, b: seq<Method>)
    requires Sorted(a) && Sorted(b)
    requires forall n :: Named(a, n) == Named(b, n)
    ensures a == b
    decreases |a|
  {
    if a == [] && b != [] {
      SameEmpty(a, b);
    } else if a != [] && b == [] {
      SameEmpty(b, a);
    } else if a != [] {
      SameHead(a, b);
      SameTails(a, b);
      assert Sorted(a[1..]) && Sorted(b[1..]);
      StableSortUnique(a[1..], b[1..]);
      assert a == [a[0]] + a[1..] && b == [b[0]] + b[1..];
    }
  }

  /** `Sort` is the stable sort: every sorted, order-keeping rearrangement of the list is its result. */
  lemma SortIsStableSort(ms: seq<Method>, s: seq<Method>)
    requires Sorted(s) && forall n :: Named(s, n) == Named(ms, n)
    ensures s == Sort(ms)
  {
    SortSorted(ms);
    forall n
      ensures Named(s, n) == Named(Sort(ms), n)
    {
      SortStable(ms, n);
    }
    StableSortUnique(s, Sort(ms));
  }

  /** The methods in the order the stub lists them. */
  function Tidy(ms: seq<Method>): (r: seq<Method>)
    ensures forall m :: m in r <==> m in ms
    ensures NoDup(r) && Sorted(r)
  {
    var d := Dedup(ms);
    var s := Sort(d);
    SortSorted(d);
    assert forall m :: m in s <==> m in multiset(s);
    assert forall m :: m in d <==> m in multiset(d);
    NoDupPermutation(d, s);
    s
  }

  /** A method at two positions occurs at least twice. */
  lemma TwiceCounted(s: seq<Method>, i: nat, j: nat)
    requires i < j < |s| && s[i] == s[j]
    ensures multiset(s)[s[i]] >= 2
  {
    assert s == s[..i] + [s[i]] + s[i + 1..j] + [s[j]] + s[j + 1..];
  }

  lemma {:induction false} CountAtMostOne(ms: seq<Method>, m: Method)
    requires NoDup(ms)
    ensures multiset(ms)[m] <= 1
  {
    if ms != [] {
      assert ms == [ms[0]] + ms[1..];
      assert NoDup(ms[1..]);
      CountAtMostOne(ms[1..], m);
      if ms[0] == m {
        assert m !in ms[1..];
      }
    }
  }

  /** A rearrangement of a list without repeats has none. */
  lemma NoDupPermutation(a: seq<Method>, b: seq<Method>)
    requires NoDup(a) && multiset(a) == multiset(b)
    ensures NoDup(b)
  {
    forall i, j | 0 <= i < j < |b|
      ensures b[i] != b[j]
    {
      CountAtMostOne(a, b[i]);
      if b[i] == b[j] {
        TwiceCounted(b, i, j);
      }
    }
  }
}
