/** Small building blocks shared by the whole model: an optional value, the
    filtered views and counts that stand for the database's `where ...->get()`
    and `->count()`, the first-match lookup that stands for `->first()`, and the
    two pieces of number handling the source relies on (PHP's `round($x, 2)` and
    a cast to `int` that truncates toward zero). */
module Common {

  datatype Option<+T> = None | Some(value: T)

  /** The index of the first element satisfying `p`, as `->first()` over rows kept in id order. */
  function FirstIndex<T>(s: seq<T>, p: T -> bool): (r: Option<nat>)
    ensures r.Some? ==> r.value < |s| && p(s[r.value])
    ensures r.Some? ==> forall j :: 0 <= j < r.value ==> !p(s[j])
    ensures r.None? <==> forall j :: 0 <= j < |s| ==> !p(s[j])
  {
    if s == [] then None
    else if p(s[0]) then Some(0)
    else match FirstIndex(s[1..], p)
      case None => None
      case Some(i) => Some(i + 1)
  }

  /** The elements of `s` satisfying `p`, in their original order. */
  function Filter<T>(s: seq<T>, p: T -> bool): (r: seq<T>)
    ensures |r| <= |s|
  {
    if s == [] then []
    else Filter(s[..|s| - 1], p) + (if p(s[|s| - 1]) then [s[|s| - 1]] else [])
  }

  /** The filtered sequence holds exactly the elements of `s` satisfying `p`. */
  lemma {:induction false} FilterMembers<T>(s: seq<T>, p: T -> bool)
    ensures forall x :: x in Filter(s, p) <==> x in s && p(x)
  {
    if s != [] {
      FilterMembers(s[..|s| - 1], p);
      assert s == s[..|s| - 1] + [s[|s| - 1]];
    }
  }

  /** The values `f` yields on the elements of `s`, in order, skipping `None`. */
  function FilterMap<A, B>(s: seq<A>, f: A -> Option<B>): (r: seq<B>)
    ensures |r| <= |s|
  {
    if s == [] then []
    else
      var last := match f(s[|s| - 1]) case Some(b) => [b] case None => [];
      FilterMap(s[..|s| - 1], f) + last
  }

  lemma FilterMapSnoc<A, B>(s: seq<A>, x: A, f: A -> Option<B>)
    ensures FilterMap(s + [x], f) == FilterMap(s, f) + (match f(x) case Some(b) => [b] case None => [])
  {
    assert (s + [x])[..|s|] == s;
  }

  lemma FilterMapSingle<A, B>(x: A, f: A -> Option<B>)
    ensures FilterMap([x], f) == (match f(x) case Some(b) => [b] case None => [])
  {
    FilterMapSnoc([], x, f);
    assert [] + [x] == [x];
  }

  /** Order is kept: the values of two blocks are those of the first block
      followed by those of the second. */
  lemma {:induction false} FilterMapAppend<A, B>(a: seq<A>, b: seq<A>, f: A -> Option<B>)
    ensures FilterMap(a + b, f) == FilterMap(a, f) + FilterMap(b, f)
    decreases |b|
  {
    if b == [] {
      assert a + b == a;
    } else {
      assert (a + b)[..|a + b| - 1] == a + b[..|b| - 1];
      FilterMapAppend(a, b[..|b| - 1], f);
    }
  }

  /** A value is produced exactly when some element yields it. */
  lemma {:induction false} FilterMapMembers<A, B>(s: seq<A>, f: A -> Option<B>)
    ensures forall b :: b in FilterMap(s, f) <==> exists i :: 0 <= i < |s| && f(s[i]) == Some(b)
  {
    if s != [] {
      var init := s[..|s| - 1];
      FilterMapMembers(init, f);
      assert forall i :: 0 <= i < |init| ==> init[i] == s[i];
    }
  }

  /** Nothing is produced when no element yields a value. */
  lemma {:induction false} FilterMapNone<A, B>(s: seq<A>, f: A -> Option<B>)
    requires forall i :: 0 <= i < |s| ==> f(s[i]).None?
    ensures FilterMap(s, f) == []
  {
    if s != [] {
      FilterMapNone(s[..|s| - 1], f);
    }
  }

  /** `f` applied to every element, or `None` as soon as one application fails. */
  function MapAll<A, B>(s: seq<A>, f: A -> Option<B>): (r: Option<seq<B>>)
    ensures r.Some? ==> |r.value| == |s|
  {
    if s == [] then Some([])
    else
      match MapAll(s[..|s| - 1], f)
      case None => None
      case Some(init) =>
        match f(s[|s| - 1])
        case None => None
        case Some(b) => Some(init + [b])
  }

  /** The map succeeds exactly when every application does, and then holds
      the results in order. */
  lemma {:induction false} MapAllShape<A, B>(s: seq<A>, f: A -> Option<B>)
    ensures MapAll(s, f).Some? <==> forall k :: 0 <= k < |s| ==> f(s[k]).Some?
    ensures MapAll(s, f).Some? ==> forall k :: 0 <= k < |s| ==> Some(MapAll(s, f).value[k]) == f(s[k])
    decreases |s|
  {
    if s != [] {
      var init := s[..|s| - 1];
      MapAllShape(init, f);
      assert forall k :: 0 <= k < |init| ==> s[k] == init[k];
    }
  }

  /** A failure on a prefix fails the whole map. */
  lemma {:induction false} MapAllFailed<A, B>(s: seq<A>, f: A -> Option<B>, k: nat)
    requires k <= |s| && MapAll(s[..k], f).None?
    ensures MapAll(s, f).None?
    decreases |s|
  {
    if k < |s| {
      var init := s[..|s| - 1];
      assert init[..k] == s[..k];
      MapAllFailed(init, f, k);
    } else {
      assert s[..k] == s;
    }
  }

  /** How many elements of `s` satisfy `p`. */
  function Count<T>(s: seq<T>, p: T -> bool): nat
  {
    |Filter(s, p)|
  }

  lemma {:induction false} FilterAppend<T>(a: seq<T>, b: seq<T>, p: T -> bool)
    ensures Filter(a + b, p) == Filter(a, p) + Filter(b, p)
    decreases |b|
  {
    if b == [] {
      assert a + b == a;
    } else {
      var b' := b[..|b| - 1];
      assert (a + b)[..|a + b| - 1] == a + b';
      FilterAppend(a, b', p);
    }
  }

  /** Filtering one more element at the end. */
  lemma FilterSnoc<T>(s: seq<T>, x: T, p: T -> bool)
    ensures Filter(s + [x], p) == Filter(s, p) + (if p(x) then [x] else [])
  {
    assert (s + [x])[..|s + [x]| - 1] == s;
  }

  /** A count under a stronger predicate never exceeds the count under a weaker one. */
  lemma {:induction false} CountMonotone<T>(s: seq<T>, p: T -> bool, q: T -> bool)
    requires forall x :: p(x) ==> q(x)
    ensures Count(s, p) <= Count(s, q)
  {
    if s != [] {
      CountMonotone(s[..|s| - 1], p, q);
    }
  }

  /** Splitting one predicate by a second one splits its count exactly. */
  lemma {:induction false} CountSplit<T>(s: seq<T>, p: T -> bool, q: T -> bool, pq: T -> bool, pnq: T -> bool)
    requires forall x :: pq(x) == (p(x) && q(x))
    requires forall x :: pnq(x) == (p(x) && !q(x))
    ensures Count(s, p) == Count(s, pq) + Count(s, pnq)
  {
    if s != [] {
      CountSplit(s[..|s| - 1], p, q, pq, pnq);
    }
  }

  /** Predicates that agree on every element of `s` give the same count. */
  lemma {:induction false} CountCongruent<T>(s: seq<T>, p: T -> bool, q: T -> bool)
    requires forall i :: 0 <= i < |s| ==> p(s[i]) == q(s[i])
    ensures Count(s, p) == Count(s, q)
  {
    if s != [] {
      CountCongruent(s[..|s| - 1], p, q);
    }
  }

  /** Nothing is counted when no element satisfies `p`. */
  lemma {:induction false} CountNone<T>(s: seq<T>, p: T -> bool)
    requires forall i :: 0 <= i < |s| ==> !p(s[i])
    ensures Count(s, p) == 0
  {
    if s != [] {
      CountNone(s[..|s| - 1], p);
    }
  }

  /** Filtering by a predicate every element satisfies changes nothing. */
  lemma {:induction false} FilterAll<T>(s: seq<T>, p: T -> bool)
    requires forall i :: 0 <= i < |s| ==> p(s[i])
    ensures Filter(s, p) == s
  {
    if s != [] {
      FilterAll(s[..|s| - 1], p);
    }
  }

  /** Filtering by a predicate no element satisfies leaves nothing. */
  lemma FilterNone<T>(s: seq<T>, p: T -> bool)
    requires forall i :: 0 <= i < |s| ==> !p(s[i])
    ensures Filter(s, p) == []
  {
    CountNone(s, p);
  }

  /** The set of values `key` takes on the elements of `s`. */
  function Image<T, K>(s: seq<T>, key: T -> K): set<K>
  {
    set i | 0 <= i < |s| :: key(s[i])
  }

  /** Elements with pairwise different keys have as many keys as there are elements. */
  lemma {:induction false} DistinctImage<T, K>(s: seq<T>, key: T -> K)
    requires forall i, j :: 0 <= i < j < |s| ==> key(s[i]) != key(s[j])
    ensures |Image(s, key)| == |s|
  {
    if s != [] {
      var init := s[..|s| - 1];
      DistinctImage(init, key);
      assert Image(s, key) == Image(init, key) + {key(s[|s| - 1])};
      assert key(s[|s| - 1]) !in Image(init, key);
    }
  }

  /** A subset is never larger than its superset. */
  lemma {:induction false} SubsetSize<T>(a: set<T>, b: set<T>)
    requires a <= b
    ensures |a| <= |b|
  {
    if a != {} {
      var x :| x in a;
      SubsetSize(a - {x}, b - {x});
    }
  }

  /** PHP's `round($x, 2)`: to the nearest hundredth, halves away from zero (exact arithmetic). */
  function Round2(x: real): (r: real)
    ensures 0.0 <= x ==> 0.0 <= r
    ensures x <= 100.0 ==> r <= 100.0
    ensures -0.005 <= r - x <= 0.005
  {
    if x >= 0.0 then ((x * 100.0 + 0.5).Floor as real) / 100.0
    else -(((-x) * 100.0 + 0.5).Floor as real) / 100.0
  }

  /** A PHP `(int)` cast of `a / b`: the quotient truncated toward zero. */
  function TruncDiv(a: int, b: int): (q: int)
    requires b > 0
    ensures 0 <= a ==> 0 <= q && q * b <= a < (q + 1) * b
    ensures a < 0 ==> q <= 0 && q == -((-a) / b)
  {
    if a >= 0 then
      DivBounds(a, b);
      a / b
    else -((-a) / b)
  }

  /** Euclidean division of a non-negative number brackets it between two multiples. */
  lemma DivBounds(a: int, b: int)
    requires 0 <= a && 0 < b
    ensures 0 <= a / b && (a / b) * b <= a < (a / b + 1) * b
  {
    var q, r := a / b, a % b;
    assert a == b * q + r && 0 <= r < b;
    assert (q + 1) * b == q * b + b;
  }
}
