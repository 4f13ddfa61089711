/**
 * Sequence helpers shared by the extractor and the classifier: an
 * order-preserving filter-and-map, a counter, the concatenation of per-element
 * pieces, a key-to-size tally, and the sum of a map's values.
 */
module Collections {
  import opened Wrappers

  /** Keeps, in order, the images of the elements on which `f` is defined. */
  function FilterMap<A, B>(s: seq<A>, f: A -> Option<B>): (r: seq<B>)
    ensures |r| <= |s|
  {
    if s == [] then [] else FilterMap(s[..|s| - 1], f) + ToSeq(f(s[|s| - 1]))
  }

  /** Everything kept is the image of an element, and the image of every element on which `f` is defined is kept. */
  lemma {:induction false} FilterMapMembers<A, B>(s: seq<A>, f: A -> Option<B>)
    ensures forall y :: y in FilterMap(s, f) ==> exists x :: x in s && f(x) == Some(y)
    ensures forall x :: x in s && f(x).Some? ==> f(x).value in FilterMap(s, f)
  {
    if s != [] {
      var n := |s| - 1;
      var front := s[..n];
      FilterMapMembers(front, f);
      forall y | y in FilterMap(s, f) ensures exists x :: x in s && f(x) == Some(y) {
        if y in FilterMap(front, f) {
          var x :| x in front && f(x) == Some(y);
          assert x in s;
        } else {
          assert f(s[n]) == Some(y);
        }
      }
      forall x | x in s && f(x).Some? ensures f(x).value in FilterMap(s, f) {
        if x != s[n] {
          var j :| 0 <= j < |s| && s[j] == x;
          assert front[j] == x;
        }
      }
    }
  }

  /**
   * `r` is the subsequence of the images of `s` taken at the strictly
   * increasing positions `idx`, and `idx` holds every position of `s` on which
   * `f` is defined.
   */
  ghost predicate SelectsAt<A, B>(s: seq<A>, r: seq<B>, idx: seq<int>, f: A -> Option<B>)
  {
    && |idx| == |r|
    && (forall k :: 0 <= k < |idx| ==> 0 <= idx[k] < |s| && f(s[idx[k]]) == Some(r[k]))
    && (forall k, l :: 0 <= k < l < |idx| ==> idx[k] < idx[l])
    && (forall i :: 0 <= i < |s| && f(s[i]).Some? ==> i in idx)
  }

  lemma {:induction false} FilterMapSelects<A, B>(s: seq<A>, f: A -> Option<B>)
    returns (idx: seq<int>)
    ensures SelectsAt(s, FilterMap(s, f), idx, f)
  {
    if s == [] {
      idx := [];
    } else {
      var n := |s| - 1;
      var front := s[..n];
      var r0 := FilterMap(front, f);
      var idx0 := FilterMapSelects(front, f);
      var tail := if f(s[n]).Some? then [n] else [];
      idx := idx0 + tail;
      var r := FilterMap(s, f);
      assert r == r0 + ToSeq(f(s[n]));
      assert |idx| == |r|;
      forall k | 0 <= k < |idx|
        ensures 0 <= idx[k] < |s| && f(s[idx[k]]) == Some(r[k])
      {
        if k < |idx0| {
          assert idx[k] == idx0[k] && r[k] == r0[k];
          assert s[idx0[k]] == front[idx0[k]];
        } else {
          assert idx[k] == n && r[k] == f(s[n]).value;
        }
      }
      forall k, l | 0 <= k < l < |idx|
        ensures idx[k] < idx[l]
      {
        if l < |idx0| {
          assert idx[k] == idx0[k] && idx[l] == idx0[l];
        } else {
          assert idx[l] == n && idx[k] == idx0[k];
        }
      }
      forall i | 0 <= i < |s| && f(s[i]).Some?
        ensures i in idx
      {
        if i < n {
          assert front[i] == s[i];
          assert i in idx0;
        } else {
          assert i in tail;
        }
      }
    }
  }

  lemma {:induction false} FilterMapAppend<A, B>(s: seq<A>, t: seq<A>, f: A -> Option<B>)
    ensures FilterMap(s + t, f) == FilterMap(s, f) + FilterMap(t, f)
    decreases |t|
  {
    if t == [] {
      assert s + t == s;
    } else {
      var n := |t| - 1;
      assert (s + t)[..|s + t| - 1] == s + t[..n];
      assert (s + t)[|s + t| - 1] == t[n];
      FilterMapAppend(s, t[..n], f);
    }
  }

  /** The number of elements of `s` satisfying `p`. */
  function CountWhere<T>(s: seq<T>, p: T -> bool): (n: nat)
    ensures n <= |s|
  {
    if s == [] then 0
    else CountWhere(s[..|s| - 1], p) + (if p(s[|s| - 1]) then 1 else 0)
  }

  /** The positions of `s` whose element satisfies `p`. */
  ghost function PositionsWhere<T>(s: seq<T>, p: T -> bool): set<int>
  {
    set i | 0 <= i < |s| && p(s[i])
  }

  lemma {:induction false} CountWhereIsCardinality<T>(s: seq<T>, p: T -> bool)
    ensures CountWhere(s, p) == |PositionsWhere(s, p)|
  {
    if s != [] {
      var n := |s| - 1;
      CountWhereIsCardinality(s[..n], p);
      var before := PositionsWhere(s[..n], p);
      if p(s[n]) {
        assert PositionsWhere(s, p) == before + {n};
      } else {
        assert PositionsWhere(s, p) == before;
      }
    }
  }

  lemma {:induction false} CountWhereAppend<T>(s: seq<T>, t: seq<T>, p: T -> bool)
    ensures CountWhere(s + t, p) == CountWhere(s, p) + CountWhere(t, p)
    decreases |t|
  {
    if t == [] {
      assert s + t == s;
    } else {
      var n := |t| - 1;
      assert (s + t)[..|s + t| - 1] == s + t[..n];
      assert (s + t)[|s + t| - 1] == t[n];
      CountWhereAppend(s, t[..n], p);
    }
  }

  /** The sum of the values of a finite map. */
  ghost function SumValues<K>(m: map<K, nat>): nat
    decreases |m|
  {
    if m == map[] then 0
    else
      var k :| k in m;
      m[k] + SumValues(m - {k})
  }

  lemma {:induction false} SumValuesRemove<K>(m: map<K, nat>, k: K)
    requires k in m
    ensures SumValues(m) == m[k] + SumValues(m - {k})
    decreases |m|
  {
    var j :| j in m && SumValues(m) == m[j] + SumValues(m - {j});
    if j != k {
      var mj := m - {j};
      var mk := m - {k};
      assert |mj| < |m| && |mk| < |m|;
      SumValuesRemove(mj, k);
      SumValuesRemove(mk, j);
      assert mj - {k} == mk - {j};
    }
  }

  lemma SumValuesInsert<K>(m: map<K, nat>, k: K, v: nat)
    requires k !in m
    ensures SumValues(m[k := v]) == SumValues(m) + v
  {
    SumValuesRemove(m[k := v], k);
    assert m[k := v] - {k} == m;
  }

  /** The pieces `f(x)` of every element, concatenated in order. */
  function FlatMap<A, B>(s: seq<A>, f: A -> seq<B>): seq<B>
  {
    if s == [] then [] else FlatMap(s[..|s| - 1], f) + f(s[|s| - 1])
  }

  lemma {:induction false} FlatMapAppend<A, B>(s: seq<A>, t: seq<A>, f: A -> seq<B>)
    ensures FlatMap(s + t, f) == FlatMap(s, f) + FlatMap(t, f)
    decreases |t|
  {
    if t == [] {
      assert s + t == s;
    } else {
      var n := |t| - 1;
      assert (s + t)[..|s + t| - 1] == s + t[..n];
      assert (s + t)[|s + t| - 1] == t[n];
      FlatMapAppend(s, t[..n], f);
    }
  }

  /** Maps `key(x)` to `size(x)` for each element of positive size; a later element overwrites an earlier one. */
  function Tally<A, K>(s: seq<A>, key: A -> K, size: A -> nat): map<K, nat>
  {
    if s == [] then map[]
    else
      var m, x := Tally(s[..|s| - 1], key, size), s[|s| - 1];
      if size(x) > 0 then m[key(x) := size(x)] else m
  }

  predicate DistinctKeys<A, K(==)>(s: seq<A>, key: A -> K)
  {
    forall i, j :: 0 <= i < j < |s| ==> key(s[i]) != key(s[j])
  }

  /** Every key of a tally belongs to an element of positive size. */
  lemma {:induction false} TallyKeys<A, K>(s: seq<A>, key: A -> K, size: A -> nat)
    ensures forall k :: k in Tally(s, key, size) ==>
      Tally(s, key, size)[k] > 0 && exists i :: 0 <= i < |s| && key(s[i]) == k && size(s[i]) > 0
  {
    if s != [] {
      var n := |s| - 1;
      TallyKeys(s[..n], key, size);
      forall k | k in Tally(s, key, size)
        ensures Tally(s, key, size)[k] > 0 && exists i :: 0 <= i < |s| && key(s[i]) == k && size(s[i]) > 0
      {
        if !(size(s[n]) > 0 && k == key(s[n])) {
          var j :| 0 <= j < n && key(s[..n][j]) == k && size(s[..n][j]) > 0;
          assert s[..n][j] == s[j];
        }
      }
    }
  }

  /** With distinct keys, each element has an entry exactly when its size is positive, and that entry is its size. */
  lemma {:induction false} TallyPerElement<A, K>(s: seq<A>, key: A -> K, size: A -> nat)
    requires DistinctKeys(s, key)
    ensures forall i :: 0 <= i < |s| ==>
      && (key(s[i]) in Tally(s, key, size) <==> size(s[i]) > 0)
      && (key(s[i]) in Tally(s, key, size) ==> Tally(s, key, size)[key(s[i])] == size(s[i]))
  {
    if s != [] {
      var n := |s| - 1;
      var front := s[..n];
      assert DistinctKeys(front, key) by {
        forall i, j | 0 <= i < j < |front| ensures key(front[i]) != key(front[j]) {
          assert front[i] == s[i] && front[j] == s[j];
        }
      }
      TallyPerElement(front, key, size);
      var m := Tally(s, key, size);
      forall i | 0 <= i < |s|
        ensures (key(s[i]) in m <==> size(s[i]) > 0) && (key(s[i]) in m ==> m[key(s[i])] == size(s[i]))
      {
        var mf := Tally(front, key, size);
        assert m == if size(s[n]) > 0 then mf[key(s[n]) := size(s[n])] else mf;
        if i < n {
          assert front[i] == s[i] && key(front[i]) != key(s[n]);
          assert (key(front[i]) in mf <==> size(front[i]) > 0);
        } else if key(s[n]) in mf {
          TallyKeys(front, key, size);
          assert false;
        }
      }
    }
  }
}
