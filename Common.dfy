/** Vocabulary shared by every stage of the forecasting pipeline: optional
    values (the model's stand-in for a pandas null or NaN), the millisecond
    day length, order-keeping table operations keyed by an integer column
    (sort, drop-duplicates keeping the first row, boolean filter) and the
    aggregates the reports use (sum, mean, minimum, maximum). */
module Common {

  /** A value that may be absent: a null cell, a NaN aggregate, a missing artifact. */
  datatype Option<+T> = None | Some(value: T)

  /** The outcome of a step that the source may end by raising an exception. */
  datatype Result<+T, +E> = Ok(value: T) | Err(error: E)

  /** One calendar day in epoch milliseconds, the unit of every timestamp here. */
  const MsPerDay: int := 86_400_000

  // ------------------------------------------------------------------
  // Keyed order
  // ------------------------------------------------------------------

  /** The set of keys that occur in `s`. */
  function Keys<T(==,!new)>(s: seq<T>, key: T -> int): set<int>
  {
    set y | y in s :: key(y)
  }

  predicate Ascending<T(==,!new)>(s: seq<T>, key: T -> int)
  {
    forall i, j :: 0 <= i < j < |s| ==> key(s[i]) <= key(s[j])
  }

  predicate StrictlyAscending<T(==,!new)>(s: seq<T>, key: T -> int)
  {
    forall i, j :: 0 <= i < j < |s| ==> key(s[i]) < key(s[j])
  }

  /** No two rows of `s` share a key. */
  predicate UniqueKeys<T(==,!new)>(s: seq<T>, key: T -> int)
  {
    forall i, j :: 0 <= i < j < |s| ==> key(s[i]) != key(s[j])
  }

  /** Inserts `x` before the first row whose key is not smaller than its own. */
  function Insert<T(==,!new)>(x: T, s: seq<T>, key: T -> int): (r: seq<T>)
    requires Ascending(s, key)
    ensures multiset(r) == multiset(s) + multiset{x}
    ensures Ascending(r, key)
  {
    if s == [] then [x]
    else if key(x) <= key(s[0]) then [x] + s
    else
      var rest := Insert(x, s[1..], key);
      InsertConsFacts(x, s, key, rest);
      [s[0]] + rest
  }

  /** Putting the head back in front of the insertion into the tail keeps
      the rows and the order. */
  lemma InsertConsFacts<T(!new)>(x: T, s: seq<T>, key: T -> int, rest: seq<T>)
    requires s != [] && Ascending(s, key) && key(x) > key(s[0])
    requires multiset(rest) == multiset(s[1..]) + multiset{x} && Ascending(rest, key)
    ensures multiset([s[0]] + rest) == multiset(s) + multiset{x}
    ensures Ascending([s[0]] + rest, key)
  {
    assert s == [s[0]] + s[1..];
    assert multiset(rest) == multiset(s[1..] + [x]);
    BoundTransfers(rest, s[1..] + [x], y => key(s[0]) <= key(y));
    var r := [s[0]] + rest;
    forall i, j | 0 <= i < j < |r| ensures key(r[i]) <= key(r[j]) {
      assert r[j] == rest[j - 1];
      if i > 0 {
        assert r[i] == rest[i - 1];
      }
    }
  }

  /** A property of every row of `base` holds of every row of a permutation of it. */
  lemma BoundTransfers<T(!new)>(r: seq<T>, base: seq<T>, b: T -> bool)
    requires multiset(r) == multiset(base)
    requires forall k :: 0 <= k < |base| ==> b(base[k])
    ensures forall i :: 0 <= i < |r| ==> b(r[i])
  {
    forall i | 0 <= i < |r| ensures b(r[i]) {
      assert r[i] in multiset(base);
      var k :| 0 <= k < |base| && base[k] == r[i];
    }
  }

  /** Sorts `s` ascending by `key` (an insertion sort). Rows with equal keys
      keep their relative order in this model; callers claim nothing about
      that order unless the keys are unique. */
  function SortBy<T(==,!new)>(s: seq<T>, key: T -> int): (r: seq<T>)
    ensures multiset(r) == multiset(s) && |r| == |s|
    ensures Ascending(r, key)
  {
    if s == [] then []
    else
      assert s == [s[0]] + s[1..];
      Insert(s[0], SortBy(s[1..], key), key)
  }

  lemma {:induction false} InsertStrict<T(!new)>(x: T, s: seq<T>, key: T -> int)
    requires StrictlyAscending(s, key)
    requires forall k :: 0 <= k < |s| ==> key(s[k]) != key(x)
    ensures StrictlyAscending(Insert(x, s, key), key)
  {
    if s != [] && key(x) > key(s[0]) {
      var rest := Insert(x, s[1..], key);
      InsertStrict(x, s[1..], key);
      assert multiset(rest) == multiset(s[1..] + [x]);
      BoundTransfers(rest, s[1..] + [x], y => key(s[0]) < key(y));
    }
  }

  /** A permutation has the same members. */
  lemma SameMembers<T(!new)>(a: seq<T>, b: seq<T>)
    requires multiset(a) == multiset(b)
    ensures forall y :: y in a <==> y in b
  {
    forall y ensures y in a <==> y in b {
      assert y in a <==> y in multiset(a);
      assert y in b <==> y in multiset(b);
    }
  }

  lemma KeysOfPermutation<T(!new)>(a: seq<T>, b: seq<T>, key: T -> int)
    requires multiset(a) == multiset(b)
    ensures Keys(a, key) == Keys(b, key)
  {
    forall t | t in Keys(a, key) ensures t in Keys(b, key) {
      var y :| y in a && key(y) == t;
      assert y in multiset(b);
    }
    forall t | t in Keys(b, key) ensures t in Keys(a, key) {
      var y :| y in b && key(y) == t;
      assert y in multiset(a);
    }
  }

  /** Sorting keeps the set of keys, and with unique keys the result is
      strictly ascending. */
  lemma {:induction false} SortByFacts<T(!new)>(s: seq<T>, key: T -> int)
    ensures Keys(SortBy(s, key), key) == Keys(s, key)
    ensures UniqueKeys(s, key) ==> StrictlyAscending(SortBy(s, key), key)
  {
    KeysOfPermutation(SortBy(s, key), s, key);
    if s != [] && UniqueKeys(s, key) {
      var rest := SortBy(s[1..], key);
      SortByFacts(s[1..], key);
      assert UniqueKeys(s[1..], key) by {
        forall i, j | 0 <= i < j < |s[1..]| ensures key(s[1..][i]) != key(s[1..][j]) {
          assert s[1..][i] == s[i + 1] && s[1..][j] == s[j + 1];
        }
      }
      BoundTransfers(rest, s[1..], y => key(y) != key(s[0]));
      InsertStrict(s[0], rest, key);
    }
  }

  /** Sorting a sequence that is already ascending changes nothing. */
  lemma {:induction false} SortByAscendingIsIdentity<T(!new)>(s: seq<T>, key: T -> int)
    requires Ascending(s, key)
    ensures SortBy(s, key) == s
  {
    if s != [] {
      SortByAscendingIsIdentity(s[1..], key);
      assert SortBy(s[1..], key) == s[1..];
    }
  }

  // ------------------------------------------------------------------
  // Drop duplicates, keeping the first row of each key
  // ------------------------------------------------------------------

  /** The index of the first row of `s` with key `t`. */
  function FirstIndex<T(==,!new)>(s: seq<T>, key: T -> int, t: int): (i: nat)
    requires t in Keys(s, key)
    ensures i < |s| && key(s[i]) == t
    ensures forall j :: 0 <= j < i ==> key(s[j]) != t
  {
    if key(s[0]) == t then 0
    else
      assert t in Keys(s[1..], key) by {
        var y :| y in s && key(y) == t;
        var k :| 0 <= k < |s| && s[k] == y;
        assert s[1..][k - 1] == y;
      }
      1 + FirstIndex(s[1..], key, t)
  }

  /** The rows of `s` whose key is neither in `seen` nor on an earlier row. */
  function DedupFrom<T(==,!new)>(s: seq<T>, key: T -> int, seen: set<int>): (r: seq<T>)
    ensures |r| <= |s|
    ensures forall i :: 0 <= i < |r| ==> key(r[i]) !in seen
  {
    if s == [] then []
    else if key(s[0]) in seen then DedupFrom(s[1..], key, seen)
    else [s[0]] + DedupFrom(s[1..], key, seen + {key(s[0])})
  }

  /** pandas' drop_duplicates(subset=[key]) with the default keep="first". */
  function DedupBy<T(==,!new)>(s: seq<T>, key: T -> int): (r: seq<T>)
    ensures |r| <= |s|
  {
    DedupFrom(s, key, {})
  }

  lemma {:induction false} DedupFromUnique<T(!new)>(s: seq<T>, key: T -> int, seen: set<int>)
    ensures UniqueKeys(DedupFrom(s, key, seen), key)
    decreases |s|
  {
    if s != [] && key(s[0]) !in seen {
      var r := DedupFrom(s, key, seen);
      var tail := DedupFrom(s[1..], key, seen + {key(s[0])});
      DedupFromUnique(s[1..], key, seen + {key(s[0])});
      assert r == [s[0]] + tail;
      forall j | 1 <= j < |r| ensures key(r[0]) != key(r[j]) {
        assert r[j] == tail[j - 1];
      }
      forall i, j | 1 <= i < j < |r| ensures key(r[i]) != key(r[j]) {
        assert r[i] == tail[i - 1] && r[j] == tail[j - 1];
      }
    } else if s != [] {
      DedupFromUnique(s[1..], key, seen);
    }
  }

  lemma KeysCons<T(!new)>(s: seq<T>, key: T -> int)
    requires |s| > 0
    ensures Keys(s, key) == {key(s[0])} + Keys(s[1..], key)
  {
    assert forall y :: y in s <==> y == s[0] || y in s[1..];
  }

  lemma {:induction false} DedupFromKeys<T(!new)>(s: seq<T>, key: T -> int, seen: set<int>)
    ensures Keys(DedupFrom(s, key, seen), key) == Keys(s, key) - seen
    decreases |s|
  {
    if s != [] {
      KeysCons(s, key);
      if key(s[0]) in seen {
        DedupFromKeys(s[1..], key, seen);
      } else {
        var tail := DedupFrom(s[1..], key, seen + {key(s[0])});
        DedupFromKeys(s[1..], key, seen + {key(s[0])});
        KeysCons([s[0]] + tail, key);
        assert ([s[0]] + tail)[1..] == tail;
      }
    }
  }

  lemma {:induction false} DedupFromFirst<T(!new)>(s: seq<T>, key: T -> int, seen: set<int>)
    ensures forall i :: 0 <= i < |DedupFrom(s, key, seen)| ==>
      var y := DedupFrom(s, key, seen)[i]; key(y) in Keys(s, key) && y == s[FirstIndex(s, key, key(y))]
    decreases |s|
  {
    if s != [] {
      var r := DedupFrom(s, key, seen);
      var seen' := if key(s[0]) in seen then seen else seen + {key(s[0])};
      var tail := DedupFrom(s[1..], key, seen');
      DedupFromFirst(s[1..], key, seen');
      forall i | 0 <= i < |r| ensures key(r[i]) in Keys(s, key) && r[i] == s[FirstIndex(s, key, key(r[i]))] {
        var y := r[i];
        if key(s[0]) !in seen && i == 0 {
          assert y == s[0];
        } else {
          var k := if key(s[0]) in seen then i else i - 1;
          assert y == tail[k];
          assert key(y) != key(s[0]);
          FirstIndexTail(s, key, key(y));
        }
      }
    }
  }

  lemma FirstIndexTail<T(!new)>(s: seq<T>, key: T -> int, t: int)
    requires |s| > 0 && key(s[0]) != t && t in Keys(s[1..], key)
    ensures t in Keys(s, key)
    ensures FirstIndex(s, key, t) == 1 + FirstIndex(s[1..], key, t)
  {
    var y :| y in s[1..] && key(y) == t;
    assert y in s;
  }

  /** Dropping duplicates from rows whose keys are already unique changes nothing. */
  lemma {:induction false} DedupFromUniqueIsIdentity<T(!new)>(s: seq<T>, key: T -> int, seen: set<int>)
    requires UniqueKeys(s, key)
    requires forall i :: 0 <= i < |s| ==> key(s[i]) !in seen
    ensures DedupFrom(s, key, seen) == s
    decreases |s|
  {
    if s != [] {
      assert forall i :: 0 <= i < |s[1..]| ==> s[1..][i] == s[i + 1];
      DedupFromUniqueIsIdentity(s[1..], key, seen + {key(s[0])});
    }
  }

  lemma DedupByUniqueIsIdentity<T(!new)>(s: seq<T>, key: T -> int)
    requires UniqueKeys(s, key)
    ensures DedupBy(s, key) == s
  {
    DedupFromUniqueIsIdentity(s, key, {});
  }

  /** Dropping duplicates leaves unique keys, loses no key, and every row kept
      is the first row of `s` with its key. */
  lemma DedupByFacts<T(!new)>(s: seq<T>, key: T -> int)
    ensures UniqueKeys(DedupBy(s, key), key)
    ensures Keys(DedupBy(s, key), key) == Keys(s, key)
    ensures forall i :: 0 <= i < |DedupBy(s, key)| ==>
      var y := DedupBy(s, key)[i]; key(y) in Keys(s, key) && y == s[FirstIndex(s, key, key(y))]
  {
    DedupFromUnique(s, key, {});
    DedupFromKeys(s, key, {});
    DedupFromFirst(s, key, {});
  }

  /** A lower bound on every key of `s` bounds every key that survives. */
  lemma {:induction false} DedupFromBound<T(!new)>(s: seq<T>, key: T -> int, seen: set<int>, b: int)
    requires forall k :: 0 <= k < |s| ==> b <= key(s[k])
    ensures forall i :: 0 <= i < |DedupFrom(s, key, seen)| ==> b <= key(DedupFrom(s, key, seen)[i])
    decreases |s|
  {
    if s != [] {
      var seen' := if key(s[0]) in seen then seen else seen + {key(s[0])};
      assert forall k :: 0 <= k < |s[1..]| ==> s[1..][k] == s[k + 1];
      DedupFromBound(s[1..], key, seen', b);
    }
  }

  lemma {:induction false} DedupFromAscending<T(!new)>(s: seq<T>, key: T -> int, seen: set<int>)
    requires Ascending(s, key)
    ensures Ascending(DedupFrom(s, key, seen), key)
    decreases |s|
  {
    if s != [] {
      var seen' := if key(s[0]) in seen then seen else seen + {key(s[0])};
      assert forall k :: 0 <= k < |s[1..]| ==> s[1..][k] == s[k + 1];
      DedupFromAscending(s[1..], key, seen');
      if key(s[0]) !in seen {
        var tail := DedupFrom(s[1..], key, seen');
        DedupFromBound(s[1..], key, seen', key(s[0]));
        var r := [s[0]] + tail;
        assert forall i :: 1 <= i < |r| ==> r[i] == tail[i - 1];
      }
    }
  }

  /** Dropping duplicates from an ascending sequence leaves it strictly ascending. */
  lemma DedupByAscending<T(!new)>(s: seq<T>, key: T -> int)
    requires Ascending(s, key)
    ensures StrictlyAscending(DedupBy(s, key), key)
  {
    DedupFromAscending(s, key, {});
    DedupFromUnique(s, key, {});
  }

  // ------------------------------------------------------------------
  // Boolean filter
  // ------------------------------------------------------------------

  /** The rows of `s` that satisfy `p`, in their original order (pandas' df[mask]). */
  function Filter<T(==,!new)>(s: seq<T>, p: T -> bool): (r: seq<T>)
    ensures |r| <= |s|
    ensures forall y :: y in r <==> y in s && p(y)
  {
    if s == [] then []
    else
      assert forall y :: y in s <==> y == s[0] || y in s[1..];
      if p(s[0]) then [s[0]] + Filter(s[1..], p) else Filter(s[1..], p)
  }

  /** Filtering distributes over concatenation: with Filter([x]) this pins
      down that the filter keeps the order of `s`. */
  lemma {:induction false} FilterAppend<T(!new)>(a: seq<T>, b: seq<T>, p: T -> bool)
    ensures Filter(a + b, p) == Filter(a, p) + Filter(b, p)
  {
    if a == [] {
      assert a + b == b;
    } else {
      assert (a + b)[0] == a[0] && (a + b)[1..] == a[1..] + b;
      FilterAppend(a[1..], b, p);
      if p(a[0]) {
        assert Filter(a + b, p) == [a[0]] + Filter(a[1..] + b, p);
      } else {
        assert Filter(a + b, p) == Filter(a[1..] + b, p);
      }
    }
  }

  /** A row that fails `p` and the rows that pass it partition `s`. */
  lemma {:induction false} FilterPartition<T(!new)>(s: seq<T>, p: T -> bool, q: T -> bool)
    requires forall y :: q(y) == !p(y)
    ensures multiset(Filter(s, p)) + multiset(Filter(s, q)) == multiset(s)
    ensures |Filter(s, p)| + |Filter(s, q)| == |s|
  {
    if s != [] {
      FilterPartition(s[1..], p, q);
      assert s == [s[0]] + s[1..];
    }
  }

  /** Filtering a sequence all of whose rows pass `p` returns it unchanged. */
  lemma {:induction false} FilterAll<T(!new)>(s: seq<T>, p: T -> bool)
    requires forall i :: 0 <= i < |s| ==> p(s[i])
    ensures Filter(s, p) == s
  {
    if s != [] {
      FilterAll(s[1..], p);
      assert s == [s[0]] + s[1..];
    }
  }

  /** Filtering a sequence none of whose rows passes `p` gives nothing. */
  lemma {:induction false} FilterNone<T(!new)>(s: seq<T>, p: T -> bool)
    requires forall i :: 0 <= i < |s| ==> !p(s[i])
    ensures Filter(s, p) == []
  {
    if s != [] {
      FilterNone(s[1..], p);
    }
  }

  /** Filtering an ascending sequence keeps it ascending. */
  lemma {:induction false} FilterAscending<T(!new)>(s: seq<T>, p: T -> bool, key: T -> int)
    requires Ascending(s, key)
    ensures Ascending(Filter(s, p), key)
  {
    if s != [] {
      assert forall k :: 0 <= k < |s[1..]| ==> s[1..][k] == s[k + 1];
      FilterAscending(s[1..], p, key);
      if p(s[0]) {
        var tail := Filter(s[1..], p);
        var r := [s[0]] + tail;
        forall i | 1 <= i < |r| ensures key(r[0]) <= key(r[i]) {
          assert r[i] == tail[i - 1] && tail[i - 1] in s[1..];
        }
        assert forall i, j :: 1 <= i < j < |r| ==> r[i] == tail[i - 1] && r[j] == tail[j - 1];
      }
    }
  }

  /** Filtering a strictly ascending sequence keeps it strictly ascending. */
  lemma {:induction false} FilterStrictlyAscending<T(!new)>(s: seq<T>, p: T -> bool, key: T -> int)
    requires StrictlyAscending(s, key)
    ensures StrictlyAscending(Filter(s, p), key)
  {
    if s != [] {
      assert forall k :: 0 <= k < |s[1..]| ==> s[1..][k] == s[k + 1];
      FilterStrictlyAscending(s[1..], p, key);
      if p(s[0]) {
        var tail := Filter(s[1..], p);
        var r := [s[0]] + tail;
        forall i | 1 <= i < |r| ensures key(r[0]) < key(r[i]) {
          assert r[i] == tail[i - 1] && tail[i - 1] in s[1..];
        }
        assert forall i, j :: 1 <= i < j < |r| ==> r[i] == tail[i - 1] && r[j] == tail[j - 1];
      }
    }
  }

  /** The row predicate "has key `t`" (a boolean mask df[key] == t). */
  function HasKey<T>(key: T -> int, t: int): T -> bool
  {
    y => key(y) == t
  }

  /** With unique keys, the rows with key `t` are the first such row, or none. */
  lemma {:induction false} FilterUniqueKey<T(!new)>(s: seq<T>, key: T -> int, t: int)
    requires UniqueKeys(s, key)
    ensures Filter(s, HasKey(key, t)) == if t in Keys(s, key) then [s[FirstIndex(s, key, t)]] else []
  {
    if s != [] {
      var rest := s[1..];
      assert forall k :: 0 <= k < |rest| ==> rest[k] == s[k + 1];
      assert UniqueKeys(rest, key);
      KeysCons(s, key);
      if key(s[0]) == t {
        assert forall k :: 0 <= k < |rest| ==> !HasKey(key, t)(rest[k]);
        FilterNone(rest, HasKey(key, t));
      } else {
        FilterUniqueKey(rest, key, t);
        if t in Keys(rest, key) {
          FirstIndexTail(s, key, t);
        }
      }
    }
  }

  // ------------------------------------------------------------------
  // Aggregates over real columns
  // ------------------------------------------------------------------

  function Sum(s: seq<real>): real
  {
    if s == [] then 0.0 else s[0] + Sum(s[1..])
  }

  function Mean(s: seq<real>): real
    requires |s| > 0
  {
    Sum(s) / |s| as real
  }

  /** pandas' mean: NaN (None) for an empty column. */
  function MeanOrNone(s: seq<real>): (m: Option<real>)
    ensures m.Some? <==> |s| > 0
    ensures m.Some? ==> m.value == Mean(s)
  {
    if |s| == 0 then None else Some(Mean(s))
  }

  function MaxReal(s: seq<real>): (m: real)
    requires |s| > 0
    ensures m in s && forall i :: 0 <= i < |s| ==> s[i] <= m
  {
    if |s| == 1 then s[0]
    else
      var rest := MaxReal(s[1..]);
      assert forall i :: 1 <= i < |s| ==> s[i] == s[1..][i - 1];
      if s[0] >= rest then s[0] else rest
  }

  function MinReal(s: seq<real>): (m: real)
    requires |s| > 0
    ensures m in s && forall i :: 0 <= i < |s| ==> m <= s[i]
  {
    if |s| == 1 then s[0]
    else
      var rest := MinReal(s[1..]);
      assert forall i :: 1 <= i < |s| ==> s[i] == s[1..][i - 1];
      if s[0] <= rest then s[0] else rest
  }

  /** MaxInt and MinInt are the same folds as MaxReal and MinReal, over
      integer dates: Dafny has no ordering generic over both types. */
  function MaxInt(s: seq<int>): (m: int)
    requires |s| > 0
    ensures m in s && forall i :: 0 <= i < |s| ==> s[i] <= m
  {
    if |s| == 1 then s[0]
    else
      var rest := MaxInt(s[1..]);
      assert forall i :: 1 <= i < |s| ==> s[i] == s[1..][i - 1];
      if s[0] >= rest then s[0] else rest
  }

  function MinInt(s: seq<int>): (m: int)
    requires |s| > 0
    ensures m in s && forall i :: 0 <= i < |s| ==> m <= s[i]
  {
    if |s| == 1 then s[0]
    else
      var rest := MinInt(s[1..]);
      assert forall i :: 1 <= i < |s| ==> s[i] == s[1..][i - 1];
      if s[0] <= rest then s[0] else rest
  }

  /** A sum of non-negative terms is non-negative, and it is zero exactly
      when every term is zero. */
  lemma {:induction false} SumNonNegative(s: seq<real>)
    requires forall i :: 0 <= i < |s| ==> s[i] >= 0.0
    ensures Sum(s) >= 0.0
    ensures Sum(s) == 0.0 <==> forall i :: 0 <= i < |s| ==> s[i] == 0.0
  {
    if s != [] {
      SumNonNegative(s[1..]);
      assert forall i :: 1 <= i < |s| ==> s[i] == s[1..][i - 1];
    }
  }

  /** |s| copies of a bound bound the sum. */
  lemma {:induction false} SumBounds(s: seq<real>, lo: real, hi: real)
    requires forall i :: 0 <= i < |s| ==> lo <= s[i] <= hi
    ensures |s| as real * lo <= Sum(s) <= |s| as real * hi
  {
    if s != [] {
      SumBounds(s[1..], lo, hi);
      var m := |s[1..]| as real;
      assert |s| as real * lo == m * lo + lo;
      assert |s| as real * hi == m * hi + hi;
    }
  }

  /** The mean of a non-empty column lies between its minimum and its maximum. */
  lemma {:induction false} MeanBetweenMinAndMax(s: seq<real>)
    requires |s| > 0
    ensures MinReal(s) <= Mean(s) <= MaxReal(s)
  {
    MeanBounds(s, MinReal(s), MaxReal(s));
  }

  /** Bounds on every value bound the mean. */
  lemma MeanBounds(s: seq<real>, lo: real, hi: real)
    requires |s| > 0
    requires forall i :: 0 <= i < |s| ==> lo <= s[i] <= hi
    ensures lo <= Mean(s) <= hi
  {
    SumBounds(s, lo, hi);
    DivideBounds(Sum(s), |s| as real, lo, hi);
  }

  lemma DivideBounds(total: real, n: real, lo: real, hi: real)
    requires n > 0.0 && n * lo <= total <= n * hi
    ensures lo <= total / n <= hi
  {
    assert total / n - lo == (total - n * lo) / n;
    assert hi - total / n == (n * hi - total) / n;
  }
}
