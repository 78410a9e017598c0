/**
 * The Java stream stages the selectors and the report builder are made of
 * (`filter`, `sorted`, `limit`, `map`), the sequential "process each item,
 * stop at the first exception" loop, and the ordered join of futures.
 */
module Streams {
  import opened Domain

  // ---------------------------------------------------------------------
  // filter

  /** `stream.filter(p)`: the elements that satisfy `p`, in encounter order. */
  function Filter<T>(s: seq<T>, p: T -> bool): (r: seq<T>)
    ensures |r| <= |s|
  {
    if |s| == 0 then [] else (if p(s[0]) then [s[0]] else []) + Filter(s[1..], p)
  }

  /** Filter keeps every element that satisfies `p`, as often as it occurs,
      and nothing else. */
  lemma {:induction false} FilterContents<T(!new)>(s: seq<T>, p: T -> bool)
    ensures forall x :: x in Filter(s, p) <==> x in s && p(x)
    ensures forall x :: multiset(Filter(s, p))[x] == if p(x) then multiset(s)[x] else 0
  {
    if |s| > 0 {
      FilterContents(s[1..], p);
      assert s == [s[0]] + s[1..];
    }
  }

  lemma FilterOne<T>(x: T, p: T -> bool)
    ensures Filter([x], p) == if p(x) then [x] else []
  {
    assert [x][1..] == [];
  }

  /** Filtering distributes over concatenation. */
  lemma {:induction false} FilterConcat<T(!new)>(a: seq<T>, b: seq<T>, p: T -> bool)
    ensures Filter(a + b, p) == Filter(a, p) + Filter(b, p)
  {
    if |a| == 0 {
      assert a + b == b;
    } else {
      var head := if p(a[0]) then [a[0]] else [];
      assert (a + b)[0] == a[0];
      assert (a + b)[1..] == a[1..] + b;
      assert Filter(a + b, p) == head + Filter(a[1..] + b, p);
      FilterConcat(a[1..], b, p);
      assert Filter(a, p) == head + Filter(a[1..], p);
    }
  }

  /** The positions, in increasing order, of the elements that satisfy `p`. */
  function KeptIndices<T>(s: seq<T>, p: T -> bool): (r: seq<nat>)
    ensures forall k :: 0 <= k < |r| ==> r[k] < |s|
  {
    if |s| == 0 then []
    else KeptIndices(s[..|s| - 1], p) + (if p(s[|s| - 1]) then [|s| - 1] else [])
  }

  /**
   * Filter keeps exactly the elements that satisfy `p`, each once, in their
   * original order: its k-th element is the element at the k-th kept
   * position, the kept positions increase strictly, and a position is kept
   * exactly when its element satisfies `p`.
   */
  lemma {:induction false} FilterIsOrderedSubsequence<T(!new)>(s: seq<T>, p: T -> bool)
    ensures |KeptIndices(s, p)| == |Filter(s, p)|
    ensures forall k :: 0 <= k < |Filter(s, p)| ==> Filter(s, p)[k] == s[KeptIndices(s, p)[k]]
    ensures forall k, l :: 0 <= k < l < |KeptIndices(s, p)| ==> KeptIndices(s, p)[k] < KeptIndices(s, p)[l]
    ensures forall i :: 0 <= i < |s| ==> (p(s[i]) <==> i in KeptIndices(s, p))
  {
    if |s| > 0 {
      var n := |s| - 1;
      var front := s[..n];
      assert s == front + [s[n]];
      FilterConcat(front, [s[n]], p);
      assert [s[n]][1..] == [];
      FilterIsOrderedSubsequence(front, p);
      var idx := KeptIndices(s, p);
      assert idx == KeptIndices(front, p) + (if p(s[n]) then [n] else []);
      forall i | 0 <= i < |s|
        ensures p(s[i]) <==> i in idx
      {
        if i < n {
          assert s[i] == front[i];
          assert i in KeptIndices(front, p) <==> i in idx;
        }
      }
    }
  }

  // ---------------------------------------------------------------------
  // sorted (stable)

  /** Non-decreasing in `key`. */
  predicate SortedBy<T>(s: seq<T>, key: T -> int)
  {
    forall i, j :: 0 <= i < j < |s| ==> key(s[i]) <= key(s[j])
  }

  /** The test "has key `k`", as a value that `Filter` can take. */
  function HasKey<T>(key: T -> int, k: int): T -> bool
  {
    x => key(x) == k
  }

  /** Puts `x` in front of the first element whose key is not smaller. */
  function InsertBy<T>(x: T, s: seq<T>, key: T -> int): seq<T>
  {
    if |s| == 0 then [x]
    else if key(x) <= key(s[0]) then [x] + s
    else [s[0]] + InsertBy(x, s[1..], key)
  }

  /** Inserting adds `x` and nothing else. */
  lemma {:induction false} InsertByAddsOne<T>(x: T, s: seq<T>, key: T -> int)
    ensures |InsertBy(x, s, key)| == |s| + 1
    ensures multiset(InsertBy(x, s, key)) == multiset(s) + multiset{x}
  {
    if |s| > 0 && key(x) > key(s[0]) {
      assert s == [s[0]] + s[1..];
      InsertByAddsOne(x, s[1..], key);
    }
  }

  /** Inserting into a sorted sequence keeps it sorted. */
  lemma {:induction false} InsertByKeepsSorted<T>(x: T, s: seq<T>, key: T -> int)
    requires SortedBy(s, key)
    ensures SortedBy(InsertBy(x, s, key), key)
  {
    if |s| == 0 || key(x) <= key(s[0]) {
      SortedCons(x, s, key);
    } else {
      var t := s[1..];
      SortedTail(s, key);
      InsertByKeepsSorted(x, t, key);
      InsertByAddsOne(x, t, key);
      var rest := InsertBy(x, t, key);
      forall y | y in rest
        ensures key(s[0]) <= key(y)
      {
        assert y in multiset(t) + multiset{x};
        if y != x {
          var m :| 0 <= m < |t| && t[m] == y;
          assert t[m] == s[m + 1];
        }
      }
      SortedCons(s[0], rest, key);
    }
  }

  /** Dropping the first element keeps a sequence sorted. */
  lemma SortedTail<T>(s: seq<T>, key: T -> int)
    requires SortedBy(s, key) && |s| > 0
    ensures SortedBy(s[1..], key)
  {
    forall i, j | 0 <= i < j < |s| - 1
      ensures key(s[1..][i]) <= key(s[1..][j])
    {
      assert s[1..][i] == s[i + 1] && s[1..][j] == s[j + 1];
    }
  }

  /** A head no larger than every element of a sorted tail gives a sorted
      sequence. */
  lemma SortedCons<T>(h: T, t: seq<T>, key: T -> int)
    requires SortedBy(t, key)
    requires forall y :: y in t ==> key(h) <= key(y)
    ensures SortedBy([h] + t, key)
  {
    var r := [h] + t;
    forall i, j | 0 <= i < j < |r|
      ensures key(r[i]) <= key(r[j])
    {
      assert r[j] == t[j - 1];
      if i > 0 {
        assert r[i] == t[i - 1];
      }
    }
  }

  /**
   * `stream.sorted(Comparator.comparing(key))`. The Java sort of an ordered
   * stream is stable; so is this insertion sort, which inserts each element
   * in front of the sorted rest.
   */
  function SortBy<T>(s: seq<T>, key: T -> int): seq<T>
  {
    if |s| == 0 then [] else InsertBy(s[0], SortBy(s[1..], key), key)
  }

  /** The result is sorted and is a permutation of the input. */
  lemma {:induction false} SortByIsSortedPermutation<T>(s: seq<T>, key: T -> int)
    ensures |SortBy(s, key)| == |s|
    ensures SortedBy(SortBy(s, key), key)
    ensures multiset(SortBy(s, key)) == multiset(s)
  {
    if |s| > 0 {
      assert s == [s[0]] + s[1..];
      SortByIsSortedPermutation(s[1..], key);
      InsertByKeepsSorted(s[0], SortBy(s[1..], key), key);
      InsertByAddsOne(s[0], SortBy(s[1..], key), key);
    }
  }

  /** Inserting `x` puts it in front of every element with the same key:
      it only ever passes elements whose key is smaller. */
  lemma {:induction false} InsertByKeepsKeyOrder<T(!new)>(x: T, s: seq<T>, key: T -> int, k: int)
    ensures Filter(InsertBy(x, s, key), HasKey(key, k))
         == (if key(x) == k then [x] else []) + Filter(s, HasKey(key, k))
  {
    var p := HasKey(key, k);
    FilterOne(x, p);
    if |s| == 0 {
    } else if key(x) <= key(s[0]) {
      FilterConcat([x], s, p);
    } else {
      var t := s[1..];
      var rest := InsertBy(x, t, key);
      var xs := if key(x) == k then [x] else [];
      var head := Filter([s[0]], p);
      assert s == [s[0]] + t;
      assert InsertBy(x, s, key) == [s[0]] + rest;
      InsertByKeepsKeyOrder(x, t, key, k);
      FilterConcat([s[0]], rest, p);
      FilterConcat([s[0]], t, p);
      FilterOne(s[0], p);
      assert Filter(InsertBy(x, s, key), p) == head + (xs + Filter(t, p));
      assert Filter(s, p) == head + Filter(t, p);
      // x and s[0] have different keys, so at most one of them is kept
      assert head == [] || xs == [];
      SwapEmpty(head, xs, Filter(t, p));
    }
  }

  lemma SwapEmpty<T>(a: seq<T>, b: seq<T>, c: seq<T>)
    requires a == [] || b == []
    ensures a + (b + c) == b + (a + c)
  {
    if a == [] {
      assert a + (b + c) == b + c == b + (a + c);
    } else {
      assert a + (b + c) == a + c == b + (a + c);
    }
  }

  /**
   * Stability: for every key value, the elements with that key appear in
   * the sorted sequence in exactly the order they had in the input.
   */
  lemma {:induction false} SortByIsStable<T(!new)>(s: seq<T>, key: T -> int, k: int)
    ensures Filter(SortBy(s, key), HasKey(key, k)) == Filter(s, HasKey(key, k))
  {
    if |s| > 0 {
      SortByIsStable(s[1..], key, k);
      InsertByKeepsKeyOrder(s[0], SortBy(s[1..], key), key, k);
    }
  }

  // ---------------------------------------------------------------------
  // limit, map

  /** `stream.limit(n)`. */
  function Limit<T>(s: seq<T>, n: nat): (r: seq<T>)
    ensures |r| == if n < |s| then n else |s|
    ensures r == s[..|r|]
  {
    if n < |s| then s[..n] else s
  }

  /** `stream.map(f)`. */
  function MapSeq<A, B>(xs: seq<A>, f: A -> B): (r: seq<B>)
    ensures |r| == |xs|
    ensures forall i :: 0 <= i < |xs| ==> r[i] == f(xs[i])
  {
    if |xs| == 0 then [] else [f(xs[0])] + MapSeq(xs[1..], f)
  }

  /** Mapping one more item appends its image. */
  lemma MapSeqStep<A, B>(xs: seq<A>, f: A -> B, i: nat)
    requires i < |xs|
    ensures MapSeq(xs[..i + 1], f) == MapSeq(xs[..i], f) + [f(xs[i])]
  {
    assert MapSeq(xs[..i + 1], f)[i] == f(xs[i]);
  }

  // ---------------------------------------------------------------------
  // sequential processing and the ordered join

  /**
   * A for-loop that applies `f` to each item in turn and collects the
   * results; the first exception ends the loop and is what the caller sees.
   */
  function Traverse<A, B>(xs: seq<A>, f: A -> Result<B>): Result<seq<B>>
  {
    if |xs| == 0 then Ok([])
    else
      match Traverse(xs[..|xs| - 1], f)
      case Err(e) => Err(e)
      case Ok(done) =>
        match f(xs[|xs| - 1])
        case Err(e) => Err(e)
        case Ok(v) => Ok(done + [v])
  }

  /** The loop completes exactly when every item succeeds, and then the
      i-th result is the i-th item's. */
  lemma {:induction false} TraverseSucceeds<A, B>(xs: seq<A>, f: A -> Result<B>)
    ensures Traverse(xs, f).Ok? <==> forall i :: 0 <= i < |xs| ==> f(xs[i]).Ok?
    ensures Traverse(xs, f).Ok? ==>
              |Traverse(xs, f).value| == |xs| &&
              forall i :: 0 <= i < |xs| ==> Traverse(xs, f).value[i] == f(xs[i]).value
  {
    if |xs| > 0 {
      var n := |xs| - 1;
      var front := xs[..n];
      TraverseSucceeds(front, f);
      assert forall i :: 0 <= i < n ==> front[i] == xs[i];
    }
  }

  /** One more turn of the loop: the first i+1 items give the first i
      items' outcome extended by item i's. */
  lemma TraverseStep<A, B>(xs: seq<A>, f: A -> Result<B>, i: nat)
    requires i < |xs|
    ensures Traverse(xs[..i + 1], f) ==
              match Traverse(xs[..i], f)
              case Err(e) => Err(e)
              case Ok(done) =>
                match f(xs[i])
                case Err(e) => Err(e)
                case Ok(v) => Ok(done + [v])
  {
    assert xs[..i + 1][..i] == xs[..i];
  }

  /** Once the loop has failed, the remaining items change nothing. */
  lemma {:induction false} TraverseStopsAt<A, B>(xs: seq<A>, f: A -> Result<B>, n: nat)
    requires n <= |xs|
    requires Traverse(xs[..n], f).Err?
    ensures Traverse(xs, f) == Traverse(xs[..n], f)
    decreases |xs| - n
  {
    if n < |xs| {
      TraverseStep(xs, f, n);
      TraverseStopsAt(xs, f, n + 1);
    } else {
      assert xs[..n] == xs;
    }
  }

  /** When item i is the first to fail, the loop fails with its exception. */
  lemma {:induction false} TraverseFailsAtFirst<A, B>(xs: seq<A>, f: A -> Result<B>, i: nat)
    requires i < |xs|
    requires forall j :: 0 <= j < i ==> f(xs[j]).Ok?
    requires f(xs[i]).Err?
    ensures Traverse(xs, f) == Err(f(xs[i]).error)
  {
    var n := |xs| - 1;
    var front := xs[..n];
    if i == n {
      TraverseSucceeds(front, f);
      assert forall j :: 0 <= j < n ==> front[j] == xs[j];
    } else {
      assert forall j :: 0 <= j <= i ==> front[j] == xs[j];
      TraverseFailsAtFirst(front, f, i);
    }
  }

  /**
   * `allOf(futures)` followed by
   * `futures.stream().map(CompletableFuture::join).collect(toList())`. When
   * every future succeeded, `allOf` succeeds and the joins read the values
   * in list order. When some failed, `allOf` itself completes exceptionally
   * and the joins never run; the exception is the leftmost failing
   * future's, which is the one OpenJDK's `allOf` picks (its Javadoc leaves
   * the choice open).
   */
  function JoinInOrder<B>(rs: seq<Result<B>>): Result<seq<B>>
  {
    if |rs| == 0 then Ok([])
    else
      match rs[0]
      case Err(e) => Err(e)
      case Ok(v) =>
        match JoinInOrder(rs[1..])
        case Err(e) => Err(e)
        case Ok(vs) => Ok([v] + vs)
  }

  lemma {:induction false} JoinInOrderSucceeds<B>(rs: seq<Result<B>>)
    ensures JoinInOrder(rs).Ok? <==> forall i :: 0 <= i < |rs| ==> rs[i].Ok?
    ensures JoinInOrder(rs).Ok? ==>
              |JoinInOrder(rs).value| == |rs| &&
              forall i :: 0 <= i < |rs| ==> JoinInOrder(rs).value[i] == rs[i].value
  {
    if |rs| > 0 {
      JoinInOrderSucceeds(rs[1..]);
      assert forall i :: 1 <= i < |rs| ==> rs[1..][i - 1] == rs[i];
    }
  }

  lemma {:induction false} JoinInOrderFailsAtFirst<B>(rs: seq<Result<B>>, i: nat)
    requires i < |rs|
    requires forall j :: 0 <= j < i ==> rs[j].Ok?
    requires rs[i].Err?
    ensures JoinInOrder(rs) == Err(rs[i].error)
  {
    if i > 0 {
      assert forall j :: 0 <= j < i - 1 ==> rs[1..][j] == rs[j + 1];
      JoinInOrderFailsAtFirst(rs[1..], i - 1);
    }
  }

  /** Two lists of results that fail at the same places, with the same
      exceptions, join to the same outcome: both succeed, or both fail
      with the same exception. */
  lemma {:induction false} JoinInOrderAgrees<B, C>(rs: seq<Result<B>>, ts: seq<Result<C>>)
    requires |rs| == |ts|
    requires forall i :: 0 <= i < |rs| ==> (rs[i].Ok? <==> ts[i].Ok?)
    requires forall i :: 0 <= i < |rs| && rs[i].Err? ==> rs[i].error == ts[i].error
    ensures JoinInOrder(rs).Ok? <==> JoinInOrder(ts).Ok?
    ensures JoinInOrder(rs).Err? ==> JoinInOrder(rs).error == JoinInOrder(ts).error
  {
    if |rs| > 0 {
      assert forall i :: 1 <= i < |rs| ==> rs[1..][i - 1] == rs[i] && ts[1..][i - 1] == ts[i];
      JoinInOrderAgrees(rs[1..], ts[1..]);
    }
  }

  /** The first item, at or before `bound`, whose result is an exception. */
  lemma {:induction false} FirstFailure<A, B>(xs: seq<A>, f: A -> Result<B>, bound: nat) returns (i: nat)
    requires bound < |xs| && f(xs[bound]).Err?
    ensures i <= bound && f(xs[i]).Err?
    ensures forall j :: 0 <= j < i ==> f(xs[j]).Ok?
  {
    if forall j :: 0 <= j < bound ==> f(xs[j]).Ok? {
      i := bound;
    } else {
      var b :| 0 <= b < bound && f(xs[b]).Err?;
      i := FirstFailure(xs, f, b);
    }
  }

  /**
   * Computing every item's result first (the futures) and joining them in
   * list order gives what the sequential loop gives, exception included.
   */
  lemma JoinOfMapIsTraverse<A, B>(xs: seq<A>, f: A -> Result<B>)
    ensures JoinInOrder(MapSeq(xs, f)) == Traverse(xs, f)
  {
    var rs := MapSeq(xs, f);
    TraverseSucceeds(xs, f);
    JoinInOrderSucceeds(rs);
    if forall i :: 0 <= i < |xs| ==> f(xs[i]).Ok? {
      assert JoinInOrder(rs).value == Traverse(xs, f).value;
    } else {
      var bad :| 0 <= bad < |xs| && f(xs[bad]).Err?;
      var i := FirstFailure(xs, f, bad);
      TraverseFailsAtFirst(xs, f, i);
      JoinInOrderFailsAtFirst(rs, i);
    }
  }
}
