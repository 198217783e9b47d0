/** Shared vocabulary: identifiers, results, and the sequence operations the graphs use. */
module Basics {

  /** A 32-byte hash, read as a big-endian number. Hashes are taken to be collision free,
      so only their identity (and, in `hail`, their order) matters. */
  datatype Hash = Hash(digest: nat)

  type u8 = x: int | 0 <= x <= 255

  datatype Option<+T> = None | Some(value: T)

  datatype Result<+T, +E> = Ok(value: T) | Err(error: E)

  ghost predicate Distinct<T>(s: seq<T>) {
    forall i, j :: 0 <= i < j < |s| ==> s[i] != s[j]
  }

  ghost function Elems<T>(s: seq<T>): set<T> {
    set x | x in s
  }

  lemma NoElems<T>()
    ensures Elems<T>([]) == {} && Distinct<T>([])
  {
  }

  lemma NotElem<T>(s: seq<T>, x: T)
    requires x !in Elems(s)
    ensures x !in s
  {
  }

  lemma DifferenceEmpty<T>(a: set<T>, b: set<T>)
    requires a <= b && b - a == {}
    ensures a == b
  {
    assert forall x | x in b :: x in a || x in b - a;
  }

  lemma DistinctConcat<T>(a: seq<T>, b: seq<T>)
    requires Distinct(a) && Distinct(b) && Elems(a) !! Elems(b)
    ensures Distinct(a + b) && Elems(a + b) == Elems(a) + Elems(b)
  {
    forall i, j | 0 <= i < j < |a + b| ensures (a + b)[i] != (a + b)[j] {
      if i < |a| <= j { assert a[i] in Elems(a) && b[j - |a|] in Elems(b); }
    }
  }

  lemma DistinctSnoc<T>(s: seq<T>, x: T)
    requires Distinct(s) && x !in s
    ensures Distinct(s + [x]) && Elems(s + [x]) == Elems(s) + {x}
  {
    DistinctConcat(s, [x]);
  }

  lemma DistinctMid<T>(a: seq<T>, x: T, b: seq<T>)
    requires Distinct(a + [x] + b)
    ensures x !in a && x !in b
  {
    var s := a + [x] + b;
    assert s[|a|] == x;
    assert forall i :: 0 <= i < |a| ==> s[i] == a[i];
    assert forall i :: 0 <= i < |b| ==> s[|a| + 1 + i] == b[i];
  }

  /** `Vec::retain(|e| e != x)` */
  function Without<T(==)>(s: seq<T>, x: T): (r: seq<T>)
    ensures x !in r && (x !in s ==> r == s)
    ensures forall y | y in s :: y != x ==> y in r
    ensures forall y | y in r :: y in s
  {
    if s == [] then []
    else if s[0] == x then Without(s[1..], x) else [s[0]] + Without(s[1..], x)
  }

  /** `Vec::retain(|e| keep.contains(e))` */
  function Keep<T(==)>(s: seq<T>, keep: set<T>): (r: seq<T>)
    ensures forall x | x in s :: x in keep ==> x in r
    ensures forall x | x in r :: x in s && x in keep
  {
    if s == [] then []
    else if s[0] in keep then [s[0]] + Keep(s[1..], keep) else Keep(s[1..], keep)
  }

  lemma {:induction false} KeepCounts<T>(s: seq<T>, keep: set<T>, y: T)
    ensures multiset(Keep(s, keep))[y] == if y in keep then multiset(s)[y] else 0
  {
    if s != [] {
      assert s == [s[0]] + s[1..];
      KeepCounts(s[1..], keep, y);
    }
  }

  lemma {:induction false} WithoutKeep<T>(s: seq<T>, keep: set<T>, x: T)
    ensures Without(Keep(s, keep), x) == Keep(s, keep - {x})
  {
    if s != [] { WithoutKeep(s[1..], keep, x); }
  }

  lemma {:induction false} KeepAll<T>(s: seq<T>, keep: set<T>)
    requires forall x :: x in s ==> x in keep
    ensures Keep(s, keep) == s
  {
    if s != [] { KeepAll(s[1..], keep); }
  }

  /** The elements that `Keep` keeps stay in their order: a sublist of a distinct list is distinct. */
  lemma {:induction false} KeepDistinct<T>(s: seq<T>, keep: set<T>)
    requires Distinct(s)
    ensures Distinct(Keep(s, keep))
  {
    if s != [] {
      KeepDistinct(s[1..], keep);
      assert s[0] !in s[1..];
    }
  }

  lemma {:induction false} DistinctCounts<T(!new)>(s: seq<T>)
    ensures Distinct(s) <==> forall x :: multiset(s)[x] <= 1
  {
    if s != [] {
      DistinctCounts(s[1..]);
      assert s == [s[0]] + s[1..];
      if Distinct(s) {
        assert Distinct(s[1..]) && s[0] !in s[1..];
      } else if forall x :: multiset(s)[x] <= 1 {
        assert multiset(s)[s[0]] == 1 + multiset(s[1..])[s[0]];
        assert forall x :: multiset(s[1..])[x] <= multiset(s)[x];
        assert false;
      }
    }
  }

  lemma RemoveAt<T>(s: seq<T>, j: nat)
    requires j < |s|
    ensures multiset(s[..j] + s[j + 1..]) == multiset(s) - multiset{s[j]}
  {
    assert s == s[..j] + [s[j]] + s[j + 1..];
  }

  /** A rearrangement of a list has its head somewhere. */
  lemma SameHead<T>(a: seq<T>, b: seq<T>) returns (j: nat)
    requires a != [] && multiset(a) == multiset(b)
    ensures j < |b| && b[j] == a[0] && multiset(a[1..]) == multiset(b[..j] + b[j + 1..])
  {
    assert a[0] in multiset(a) && a[0] in multiset(b);
    j :| 0 <= j < |b| && b[j] == a[0];
    RemoveAt(a, 0);
    assert a[..0] + a[1..] == a[1..];
    RemoveAt(b, j);
  }

  lemma DistinctSame<T(!new)>(a: seq<T>, b: seq<T>)
    requires Distinct(a) && Distinct(b) && forall x :: x in a <==> x in b
    ensures multiset(a) == multiset(b)
  {
    DistinctCounts(a);
    DistinctCounts(b);
    assert forall x :: x in a <==> x in multiset(a);
    assert forall x :: x in b <==> x in multiset(b);
  }

  /** A list without repeats is no longer than the set its elements come from. */
  lemma {:induction false} DistinctLength<T>(s: seq<T>, u: set<T>)
    requires Distinct(s) && forall x :: x in s ==> x in u
    ensures |s| <= |u|
    ensures |s| == |Elems(s)|
  {
    if s != [] {
      assert s[0] !in s[1..];
      DistinctLength(s[1..], u - {s[0]});
      assert Elems(s) == {s[0]} + Elems(s[1..]);
    }
  }

  /** A finite set can be listed. */
  lemma ListSet(s: set<Hash>) returns (l: seq<Hash>)
    ensures Distinct(l) && Elems(l) == s
  {
    l := [];
    if s != {} {
      var x :| x in s;
      var rest := ListSet(s - {x});
      assert x !in rest by { assert x in rest ==> x in Elems(rest); }
      l := rest + [x];
      DistinctSnoc(rest, x);
    }
  }

  lemma ListFirst(s: set<Hash>, x: Hash) returns (l: seq<Hash>)
    requires x in s
    ensures Distinct(l) && Elems(l) == s && l != [] && l[0] == x
  {
    var rest := ListSet(s - {x});
    l := [x] + rest;
    DistinctConcat([x], rest);
  }

  /** The sum of `weight` over a finite set, each element counted once. */
  ghost function SumOver(s: set<Hash>, weight: map<Hash, u8>): nat {
    if s == {} then 0 else
    var x :| x in s;
    (if x in weight then weight[x] else 0) + SumOver(s - {x}, weight)
  }

  lemma SumOverNone(weight: map<Hash, u8>)
    ensures SumOver({}, weight) == 0
  {
  }

  lemma {:induction false} SumOverTake(s: set<Hash>, weight: map<Hash, u8>, x: Hash)
    requires x in s
    ensures SumOver(s, weight) == (if x in weight then weight[x] else 0) + SumOver(s - {x}, weight)
  {
    var y :| y in s && SumOver(s, weight) == (if y in weight then weight[y] else 0) + SumOver(s - {y}, weight);
    if y != x {
      SumOverTake(s - {y}, weight, x);
      SumOverTake(s - {x}, weight, y);
      assert s - {y} - {x} == s - {x} - {y};
    }
  }

  lemma {:induction false} SumOverMonotone(s: set<Hash>, t: set<Hash>, weight: map<Hash, u8>)
    requires s <= t
    ensures SumOver(s, weight) <= SumOver(t, weight)
  {
    if s != t {
      var x :| x in t && x !in s;
      SumOverTake(t, weight, x);
      SumOverMonotone(s, t - {x}, weight);
    }
  }

  /** `iter().collect()`: the elements of a set in whatever order it is iterated. */
  method Collect<T(==)>(s: set<T>) returns (r: seq<T>)
    ensures Distinct(r) && Elems(r) == s
  {
    r := [];
    var todo := s;
    while todo != {}
      invariant todo <= s && Distinct(r) && Elems(r) == s - todo
      decreases todo
    {
      var x :| x in todo;
      assert x !in Elems(r);
      DistinctSnoc(r, x);
      r := r + [x];
      todo := todo - {x};
    }
  }
}
