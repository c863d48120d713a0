/** Options, results, and the facts about finite maps and sequences that several components share. */
module Collections {

  datatype Option<+T> = None | Some(value: T)

  datatype Result<+T, +E> = Ok(value: T) | Err(error: E)

  // ---- sequences ----

  ghost predicate Distinct<T(!new)>(s: seq<T>) {
    forall i, j :: 0 <= i < j < |s| ==> s[i] != s[j]
  }

  function Elements<T>(s: seq<T>): set<T> {
    set x | x in s
  }

  /** The elements that satisfy `keep`, in order. */
  function Filter<T>(s: seq<T>, keep: T -> bool): (r: seq<T>) {
    if s == [] then []
    else Filter(s[..|s| - 1], keep) + (if keep(s[|s| - 1]) then [s[|s| - 1]] else [])
  }

  lemma {:induction false} FilterMembers<T>(s: seq<T>, keep: T -> bool)
    ensures |Filter(s, keep)| <= |s|
    ensures forall x :: x in Filter(s, keep) <==> x in s && keep(x)
  {
    if s != [] {
      var front, last := s[..|s| - 1], s[|s| - 1];
      FilterMembers(front, keep);
      assert s == front + [last];
    }
  }

  lemma {:induction false} FilterDistinct<T(!new)>(s: seq<T>, keep: T -> bool)
    requires Distinct(s)
    ensures Distinct(Filter(s, keep))
  {
    if s != [] {
      var front := s[..|s| - 1];
      FilterDistinct(front, keep);
      FilterMembers(front, keep);
    }
  }

  lemma {:induction false} FilterConcat<T>(s: seq<T>, t: seq<T>, keep: T -> bool)
    ensures Filter(s + t, keep) == Filter(s, keep) + Filter(t, keep)
  {
    if t == [] {
      assert s + t == s;
    } else {
      FilterConcat(s, t[..|t| - 1], keep);
      assert (s + t)[..|s + t| - 1] == s + t[..|t| - 1];
    }
  }

  lemma FilterOne<T>(x: T, keep: T -> bool)
    requires keep(x)
    ensures Filter([x], keep) == [x]
  {
    assert [x][..0] == [] && Filter<T>([], keep) == [];
  }

  lemma {:induction false} FilterTwice<T>(s: seq<T>, keep: T -> bool, keep': T -> bool, both: T -> bool)
    requires forall x :: x in s ==> (both(x) <==> keep(x) && keep'(x))
    ensures Filter(Filter(s, keep), keep') == Filter(s, both)
  {
    if s != [] {
      var front, last := s[..|s| - 1], s[|s| - 1];
      FilterTwice(front, keep, keep', both);
      FilterConcat(Filter(front, keep), if keep(last) then [last] else [], keep');
    }
  }

  /** A sequence without repetitions is as long as its set of elements. */
  lemma {:induction false} DistinctSize<T(!new)>(s: seq<T>)
    requires Distinct(s)
    ensures |Elements(s)| == |s|
  {
    if s != [] {
      var front, last := s[..|s| - 1], s[|s| - 1];
      DistinctSize(front);
      assert Elements(s) == Elements(front) + {last};
      assert last !in Elements(front);
    }
  }

  lemma {:induction false} ElementsBound<T>(s: seq<T>)
    ensures |Elements(s)| <= |s|
  {
    if s != [] {
      var front, last := s[..|s| - 1], s[|s| - 1];
      ElementsBound(front);
      assert Elements(s) == Elements(front) + {last};
    }
  }

  lemma SubsetSize<T>(a: set<T>, b: set<T>)
    requires a <= b
    ensures |a| <= |b|
  {
    assert b == a + (b - a);
  }

  /** Removes the element at `pos` by moving the last one into its place. */
  function SwapRemove<T>(s: seq<T>, pos: nat): seq<T>
    requires pos < |s|
  {
    s[pos := s[|s| - 1]][..|s| - 1]
  }

  function Position<T(==)>(s: seq<T>, x: T): (r: Option<nat>)
    ensures r.Some? ==> r.value < |s| && s[r.value] == x
    ensures r.None? <==> x !in s
  {
    if s == [] then None
    else if s[0] == x then Some(0)
    else
      match Position(s[1..], x)
      case None => None
      case Some(i) => Some(i + 1)
  }

  function Without<T(==)>(s: seq<T>, x: T): seq<T> {
    match Position(s, x)
    case None => s
    case Some(pos) => SwapRemove(s, pos)
  }

  lemma WithoutKeepsOthers<T>(s: seq<T>, x: T, y: T)
    requires y != x
    ensures y in Without(s, x) <==> y in s
  {
    if Position(s, x).Some? && y in s {
      var pos := Position(s, x).value;
      var i :| 0 <= i < |s| && s[i] == y;
      assert SwapRemove(s, pos)[if i == |s| - 1 then pos else i] == y;
    }
  }

  lemma WithoutDrops<T(!new)>(s: seq<T>, x: T)
    requires Distinct(s)
    ensures Distinct(Without(s, x))
    ensures forall a :: a in Without(s, x) <==> a in s && a != x
  {
    forall a | a != x
      ensures a in Without(s, x) <==> a in s
    {
      WithoutKeepsOthers(s, x, a);
    }
  }

  lemma {:induction false} UpTo(p: int -> bool, k: nat)
    requires p(0) && forall i :: 0 <= i < k && p(i) ==> p(i + 1)
    ensures p(k)
  {
    if k > 0 { UpTo(p, k - 1); }
  }

  // ---- folding ----

  /** `init` after the first `k` items. */
  function Fold<S, T>(step: (S, T) -> S, init: S, items: seq<T>, k: nat): S
    requires k <= |items|
  {
    if k == 0 then init else step(Fold(step, init, items, k - 1), items[k - 1])
  }

  /** The induction principle of folds. */
  lemma {:induction false} FoldKeeps<S(!new), T>(step: (S, T) -> S, init: S, items: seq<T>, k: nat, inv: (S, int) -> bool)
    requires k <= |items|
    requires inv(init, 0)
    requires forall s, i :: 0 <= i < |items| && inv(s, i) ==> inv(step(s, items[i]), i + 1)
    ensures inv(Fold(step, init, items, k), k)
  {
    if k > 0 { FoldKeeps(step, init, items, k - 1, inv); }
  }

  /** A part of the state that only item `j` changes is as it was before the turn of that item, and
      stays as that turn left it. */
  lemma {:induction false} FoldTouchesOnce<S(!new), T, V>(step: (S, T) -> S, init: S, items: seq<T>, k: nat, part: S -> V, j: nat)
    requires k <= |items|
    requires forall s, i :: 0 <= i < |items| && i != j ==> part(step(s, items[i])) == part(s)
    ensures k <= j ==> part(Fold(step, init, items, k)) == part(init)
    ensures k > j ==> part(Fold(step, init, items, k)) == part(step(Fold(step, init, items, j), items[j]))
  {
    if k > 0 && k - 1 != j { FoldTouchesOnce(step, init, items, k - 1, part, j); }
  }

  // ---- sorting ----

  ghost predicate Sorted(s: seq<nat>) {
    forall i, j :: 0 <= i < j < |s| ==> s[i] <= s[j]
  }

  function Insert(x: nat, s: seq<nat>): seq<nat> {
    if s == [] || x <= s[0] then [x] + s else [s[0]] + Insert(x, s[1..])
  }

  function Sort(s: seq<nat>): seq<nat> {
    if s == [] then [] else Insert(s[0], Sort(s[1..]))
  }

  lemma SortedCons(x: nat, s: seq<nat>)
    requires Sorted(s) && forall y :: y in s ==> x <= y
    ensures Sorted([x] + s)
  {
    forall k | 0 <= k < |s|
      ensures x <= s[k]
    {
      assert s[k] in s;
    }
  }

  lemma {:induction false} InsertSorted(x: nat, s: seq<nat>)
    requires Sorted(s)
    ensures Sorted(Insert(x, s)) && |Insert(x, s)| == |s| + 1
    ensures forall y :: y in Insert(x, s) <==> y == x || y in s
  {
    if s == [] || x <= s[0] {
      SortedCons(x, s);
    } else {
      assert s == [s[0]] + s[1..];
      assert Sorted(s[1..]);
      InsertSorted(x, s[1..]);
      SortedCons(s[0], Insert(x, s[1..]));
    }
  }

  lemma {:induction false} SortSorts(s: seq<nat>)
    ensures Sorted(Sort(s)) && |Sort(s)| == |s|
    ensures forall y :: y in Sort(s) <==> y in s
  {
    if s != [] {
      SortSorts(s[1..]);
      InsertSorted(s[0], Sort(s[1..]));
      assert s == [s[0]] + s[1..];
    }
  }

  lemma {:induction false} HasLeast(s: set<nat>) returns (k: nat)
    requires s != {}
    ensures k in s && forall x :: x in s ==> k <= x
  {
    k :| k in s;
    if s - {k} == {} {
      assert s == {k} + (s - {k});
    } else {
      var k' := HasLeast(s - {k});
      assert s == {k} + (s - {k});
      if k' < k { k := k'; }
    }
  }

  function Least(s: set<nat>): (k: nat)
    requires s != {}
    ensures k in s && forall x :: x in s ==> k <= x
  {
    assert exists k :: k in s && forall x :: x in s ==> k <= x by { var k := HasLeast(s); }
    var k :| k in s && forall x :: x in s ==> k <= x;
    k
  }

  /** The elements of a set in ascending order. */
  function AscendingIds(s: set<nat>): (r: seq<nat>)
    ensures forall x :: x in r <==> x in s
  {
    if s == {} then [] else var k := Least(s); [k] + AscendingIds(s - {k})
  }

  // ---- sums ----

  function SumOf<T>(s: seq<T>, f: T -> nat): nat {
    if s == [] then 0 else SumOf(s[..|s| - 1], f) + f(s[|s| - 1])
  }

  lemma SumOfAppend<T>(s: seq<T>, x: T, f: T -> nat)
    ensures SumOf(s + [x], f) == SumOf(s, f) + f(x)
  {
    assert (s + [x])[..|s + [x]| - 1] == s;
  }

  lemma SumOfPrefix<T>(s: seq<T>, k: nat, f: T -> nat)
    requires k < |s|
    ensures SumOf(s[..k + 1], f) == SumOf(s[..k], f) + f(s[k])
  {
    assert s[..k + 1] == s[..k] + [s[k]];
    SumOfAppend(s[..k], s[k], f);
  }

  // ---- finite maps ----

  function Lookup<K, V>(m: map<K, V>, k: K): Option<V> {
    if k in m then Some(m[k]) else None
  }

  function Get<K>(m: map<K, nat>, k: K): nat {
    if k in m then m[k] else 0
  }

  ghost function SumMap<K, V>(m: map<K, V>, f: V -> nat): nat
    decreases |m|
  {
    if m == map[] then 0
    else
      var k :| k in m;
      f(m[k]) + SumMap(m - {k}, f)
  }

  lemma {:induction false} SumTakeOut<K, V>(m: map<K, V>, f: V -> nat, k: K)
    requires k in m
    ensures SumMap(m, f) == f(m[k]) + SumMap(m - {k}, f)
    decreases |m|
  {
    var c :| c in m && SumMap(m, f) == f(m[c]) + SumMap(m - {c}, f);
    if c != k {
      SumTakeOut(m - {c}, f, k);
      SumTakeOut(m - {k}, f, c);
      assert m - {c} - {k} == m - {k} - {c};
    }
  }

  lemma SumPut<K, V>(m: map<K, V>, f: V -> nat, k: K, v: V)
    ensures SumMap(m[k := v], f) == SumMap(m - {k}, f) + f(v)
    ensures k !in m ==> SumMap(m[k := v], f) == SumMap(m, f) + f(v)
    ensures k in m ==> SumMap(m[k := v], f) + f(m[k]) == SumMap(m, f) + f(v)
  {
    SumTakeOut(m[k := v], f, k);
    assert m[k := v] - {k} == m - {k};
    if k in m {
      SumTakeOut(m, f, k);
    } else {
      assert m - {k} == m;
    }
  }

  ghost function Total<K>(m: map<K, nat>): nat {
    SumMap(m, (v: nat) => v)
  }

  lemma TotalPut<K>(m: map<K, nat>, k: K, v: nat)
    ensures Total(m[k := v]) + Get(m, k) == Total(m) + v
  {
    SumPut(m, (x: nat) => x, k, v);
  }
}
