/** Sequence operations shared by the apps: `Array.prototype.filter`, the include-or-remove toggle both
    forms use, deduplication through a `Set`, and the stable `Array.prototype.sort`. */
module Collections {

  /** `r` is `s` with some elements left out, the rest in their original order. */
  predicate Subsequence<T(==)>(r: seq<T>, s: seq<T>)
    decreases |s|
  {
    if r == [] then true
    else if s == [] then false
    else (r[0] == s[0] && Subsequence(r[1..], s[1..])) || Subsequence(r, s[1..])
  }

  lemma {:induction false} SubsequenceRefl<T>(s: seq<T>)
    ensures Subsequence(s, s)
  {
    if s != [] { SubsequenceRefl(s[1..]); }
  }

  /** `s.filter(keep)`: exactly the elements that pass, in their original order. */
  function Filter<T(!new)>(s: seq<T>, keep: T -> bool): (r: seq<T>)
    ensures |r| <= |s|
    ensures forall x :: x in r <==> x in s && keep(x)
    ensures forall i :: 0 <= i < |r| ==> keep(r[i])
    ensures multiset(r) <= multiset(s)
    ensures Subsequence(r, s)
  {
    if s == [] then []
    else
      var rest := Filter(s[1..], keep);
      assert s == [s[0]] + s[1..];
      if keep(s[0]) then [s[0]] + rest else rest
  }

  /** `s.map(f)`. */
  function Map<A, B>(s: seq<A>, f: A -> B): (r: seq<B>)
    ensures |r| == |s| && forall i :: 0 <= i < |s| ==> r[i] == f(s[i])
  {
    if s == [] then [] else [f(s[0])] + Map(s[1..], f)
  }

  /** Mapping distributes over concatenation. */
  lemma MapConcat<A, B>(a: seq<A>, b: seq<A>, f: A -> B)
    ensures Map(a + b, f) == Map(a, f) + Map(b, f)
  {
    var l, ma, mb := Map(a + b, f), Map(a, f), Map(b, f);
    forall i | 0 <= i < |l| ensures l[i] == (ma + mb)[i] {
      if i < |a| {
        assert (a + b)[i] == a[i] && (ma + mb)[i] == ma[i];
      } else {
        assert (a + b)[i] == b[i - |a|] && (ma + mb)[i] == mb[i - |a|];
      }
    }
  }

  /** Filtering with a test every element passes changes nothing. */
  lemma {:induction false} FilterAll<T(!new)>(s: seq<T>, keep: T -> bool)
    requires forall i :: 0 <= i < |s| ==> keep(s[i])
    ensures Filter(s, keep) == s
  {
    if s != [] { FilterAll(s[1..], keep); }
  }

  /** Filtering distributes over concatenation. */
  lemma {:induction false} FilterConcat<T(!new)>(a: seq<T>, b: seq<T>, keep: T -> bool)
    ensures Filter(a + b, keep) == Filter(a, keep) + Filter(b, keep)
  {
    if a == [] {
      assert a + b == b;
    } else {
      assert (a + b)[0] == a[0];
      assert (a + b)[1..] == a[1..] + b;
      FilterConcat(a[1..], b, keep);
    }
  }

  /** `s.map(y => matches(y) ? f(y) : y)`: the matching elements updated in place, the rest untouched. */
  function UpdateWhere<T>(s: seq<T>, matches: T -> bool, f: T -> T): (r: seq<T>)
    ensures |r| == |s|
    ensures forall i :: 0 <= i < |s| ==> r[i] == if matches(s[i]) then f(s[i]) else s[i]
  {
    if s == [] then [] else [if matches(s[0]) then f(s[0]) else s[0]] + UpdateWhere(s[1..], matches, f)
  }

  /** Without a matching element, nothing changes. */
  lemma UpdateWhereNone<T>(s: seq<T>, matches: T -> bool, f: T -> T)
    requires forall i :: 0 <= i < |s| ==> !matches(s[i])
    ensures UpdateWhere(s, matches, f) == s
  {
  }

  /** A test and its complement split a sequence into two parts that together hold every element. */
  lemma {:induction false} FilterPartition<T(!new)>(s: seq<T>, keep: T -> bool, drop: T -> bool)
    requires forall i :: 0 <= i < |s| ==> drop(s[i]) == !keep(s[i])
    ensures multiset(Filter(s, keep)) + multiset(Filter(s, drop)) == multiset(s)
  {
    if s != [] {
      assert drop(s[0]) == !keep(s[0]);
      FilterPartition(s[1..], keep, drop);
      FilterHead(s, keep);
      FilterHead(s, drop);
      MultisetCons(s);
    }
  }

  lemma MultisetCons<T>(s: seq<T>)
    requires s != []
    ensures multiset(s) == multiset{s[0]} + multiset(s[1..])
  {
    assert s == [s[0]] + s[1..];
  }

  /** One element filtered: it is kept or dropped, and the tail is filtered on its own. */
  lemma FilterHead<T(!new)>(s: seq<T>, keep: T -> bool)
    requires s != []
    ensures multiset(Filter(s, keep))
      == (if keep(s[0]) then multiset{s[0]} else multiset{}) + multiset(Filter(s[1..], keep))
  {
    if keep(s[0]) {
      assert Filter(s, keep) == [s[0]] + Filter(s[1..], keep);
    }
  }

  /** The toggle both forms use: `prev.includes(x) ? prev.filter(y => y !== x) : [...prev, x]`. */
  function Toggle<T(==,!new)>(s: seq<T>, x: T): (r: seq<T>)
    ensures x in r <==> x !in s
    ensures forall y :: y != x ==> (y in r <==> y in s)
    ensures x !in s ==> r == s + [x]
    ensures x in s ==> Subsequence(r, s) && |r| < |s|
  {
    if x in s then
      var r := Filter(s, y => y != x);
      assert |r| < |s| by {
        assert multiset(r)[x] == 0 < multiset(s)[x];
        assert multiset(r) != multiset(s);
        if |r| == |s| {
          assert |multiset(r)| == |multiset(s)|;
          MultisetSubsetSameSize(multiset(r), multiset(s));
        }
      }
      r
    else s + [x]
  }

  lemma MultisetSubsetSameSize<T>(a: multiset<T>, b: multiset<T>)
    requires a <= b && |a| == |b|
    ensures a == b
  {
    var d := b - a;
    assert |b| == |a| + |d|;
    assert d == multiset{};
  }

  /** Toggling the same element twice restores membership of every element. */
  lemma ToggleTwice<T(!new)>(s: seq<T>, x: T)
    ensures forall y :: y in Toggle(Toggle(s, x), x) <==> y in s
  {
  }

  /** `Array.from(new Set(s))`: first occurrences, in order. */
  function Dedup<T(==,!new)>(s: seq<T>): (r: seq<T>)
    ensures forall x :: x in r <==> x in s
    ensures forall i, j :: 0 <= i < j < |r| ==> r[i] != r[j]
  {
    if s == [] then []
    else
      var r := Dedup(s[..|s| - 1]);
      assert s == s[..|s| - 1] + [s[|s| - 1]];
      if s[|s| - 1] in r then r else r + [s[|s| - 1]]
  }

  // ---------------------------------------------------------------------------
  // The stable sort
  // ---------------------------------------------------------------------------

  /** `le(a, b)` says that `a` may stand before `b`: the comparator returns a value `<= 0`. */
  ghost predicate TotalPreorder<T(!new)>(le: (T, T) -> bool)
  {
    && (forall a, b :: le(a, b) || le(b, a))
    && (forall a, b, c :: le(a, b) && le(b, c) ==> le(a, c))
  }

  predicate SortedBy<T>(s: seq<T>, le: (T, T) -> bool)
  {
    forall i, j :: 0 <= i < j < |s| ==> le(s[i], s[j])
  }

  /** Inserts `x` after every element it may follow, as a stable sort places a later element. */
  function Insert<T(!new)>(x: T, s: seq<T>, le: (T, T) -> bool): (r: seq<T>)
    requires TotalPreorder(le) && SortedBy(s, le)
    ensures SortedBy(r, le)
    ensures multiset(r) == multiset(s) + multiset{x}
    ensures |r| == |s| + 1
  {
    if s == [] then [x]
    else if !le(s[0], x) then
      BeforeAll(x, s, le);
      SortedCons(x, s, le);
      [x] + s
    else
      MultisetCons(s);
      var rest := Insert(x, s[1..], le);
      HeadBeforeInserted(s, x, rest, le);
      SortedCons(s[0], rest, le);
      [s[0]] + rest
  }

  /** An element that the head of a sorted sequence may not precede comes before all of it. */
  lemma BeforeAll<T(!new)>(x: T, s: seq<T>, le: (T, T) -> bool)
    requires TotalPreorder(le) && SortedBy(s, le) && s != [] && !le(s[0], x)
    ensures forall j :: 0 <= j < |s| ==> le(x, s[j])
  {
    forall j | 0 <= j < |s| ensures le(x, s[j]) {
      if j > 0 { assert le(s[0], s[j]); }
    }
  }

  /** The head of a sorted sequence precedes every element of its tail with `x` inserted. */
  lemma HeadBeforeInserted<T(!new)>(s: seq<T>, x: T, rest: seq<T>, le: (T, T) -> bool)
    requires SortedBy(s, le) && s != [] && le(s[0], x)
    requires multiset(rest) == multiset(s[1..]) + multiset{x}
    ensures forall j :: 0 <= j < |rest| ==> le(s[0], rest[j])
  {
    forall j | 0 <= j < |rest| ensures le(s[0], rest[j]) {
      assert rest[j] in multiset(rest);
      if rest[j] != x {
        assert rest[j] in multiset(s[1..]);
        var k :| 0 <= k < |s[1..]| && s[1..][k] == rest[j];
        assert le(s[0], s[k + 1]);
      }
    }
  }

  /** A sorted sequence stays sorted with an element in front that precedes all of it. */
  lemma SortedCons<T>(h: T, s: seq<T>, le: (T, T) -> bool)
    requires SortedBy(s, le) && forall j :: 0 <= j < |s| ==> le(h, s[j])
    ensures SortedBy([h] + s, le)
  {
    var r := [h] + s;
    forall i, j | 0 <= i < j < |r| ensures le(r[i], r[j]) {
      assert r[j] == s[j - 1];
      if i > 0 { assert r[i] == s[i - 1]; }
    }
  }

  /** `s.sort(cmp)` where `le(a, b)` is `cmp(a, b) <= 0`: an insertion sort, stable like the built-in one. */
  function SortBy<T(!new)>(s: seq<T>, le: (T, T) -> bool): (r: seq<T>)
    requires TotalPreorder(le)
    ensures SortedBy(r, le)
    ensures multiset(r) == multiset(s)
    ensures |r| == |s|
  {
    if s == [] then []
    else
      assert s == s[..|s| - 1] + [s[|s| - 1]];
      Insert(s[|s| - 1], SortBy(s[..|s| - 1], le), le)
  }

  /** The test for the elements `le` cannot tell apart from `y`: those a comparator puts level with it. */
  function Tied<T(!new)>(le: (T, T) -> bool, y: T): (tied: T -> bool)
    ensures forall x :: tied(x) <==> le(x, y) && le(y, x)
  {
    x => le(x, y) && le(y, x)
  }

  /** Filtering a sequence with an element in front. */
  lemma FilterCons<T(!new)>(a: T, s: seq<T>, keep: T -> bool)
    ensures Filter([a] + s, keep) == (if keep(a) then [a] else []) + Filter(s, keep)
  {
    assert ([a] + s)[0] == a && ([a] + s)[1..] == s;
  }

  /** Inserting `x` puts it after every element it is tied with, so each tie class keeps its order and
      gains `x` at its end. */
  lemma {:induction false} InsertStable<T(!new)>(x: T, s: seq<T>, le: (T, T) -> bool, y: T)
    requires TotalPreorder(le) && SortedBy(s, le)
    ensures Filter(Insert(x, s, le), Tied(le, y)) == Filter(s, Tied(le, y)) + Filter([x], Tied(le, y))
  {
    var tied := Tied(le, y);
    if s == [] {
      FilterCons(x, [], tied);
    } else if !le(s[0], x) {
      InsertFrontStable(x, s, le, y);
    } else {
      var rest := s[1..];
      assert Insert(x, s, le) == [s[0]] + Insert(x, rest, le);
      InsertStable(x, rest, le, y);
      FilterConsBoth(s, Insert(x, rest, le), tied, Filter([x], tied));
    }
  }

  /** Putting the head of `s` in front of `t` keeps an equation between the filters of `t` and of the tail
      of `s`. */
  lemma FilterConsBoth<T(!new)>(s: seq<T>, t: seq<T>, keep: T -> bool, tail: seq<T>)
    requires s != [] && Filter(t, keep) == Filter(s[1..], keep) + tail
    ensures Filter([s[0]] + t, keep) == Filter(s, keep) + tail
  {
    FilterCons(s[0], t, keep);
    FilterUnfold(s, keep);
    if keep(s[0]) {
      ConcatAssoc([s[0]], Filter(s[1..], keep), tail);
    } else {
      assert [] + Filter(t, keep) == Filter(t, keep);
    }
  }

  lemma ConcatAssoc<T>(a: seq<T>, b: seq<T>, c: seq<T>)
    ensures a + (b + c) == a + b + c
  {
  }

  lemma FilterUnfold<T(!new)>(s: seq<T>, keep: T -> bool)
    requires s != []
    ensures keep(s[0]) ==> Filter(s, keep) == [s[0]] + Filter(s[1..], keep)
    ensures !keep(s[0]) ==> Filter(s, keep) == Filter(s[1..], keep)
  {
  }

  /** `x` inserted in front of a sorted sequence: its tie class is `x` alone or untouched. */
  lemma InsertFrontStable<T(!new)>(x: T, s: seq<T>, le: (T, T) -> bool, y: T)
    requires TotalPreorder(le) && SortedBy(s, le) && s != [] && !le(s[0], x)
    ensures Filter(Insert(x, s, le), Tied(le, y)) == Filter(s, Tied(le, y)) + Filter([x], Tied(le, y))
  {
    var tied := Tied(le, y);
    assert Insert(x, s, le) == [x] + s;
    FilterCons(x, s, tied);
    FilterCons(x, [], tied);
    if tied(x) {
      NoneTiedAfter(x, s, le, y);
    }
  }

  /** When `x` goes in front of a sorted sequence, nothing in it is tied with `x`. */
  lemma NoneTiedAfter<T(!new)>(x: T, s: seq<T>, le: (T, T) -> bool, y: T)
    requires TotalPreorder(le) && SortedBy(s, le) && s != [] && !le(s[0], x) && Tied(le, y)(x)
    ensures Filter(s, Tied(le, y)) == []
  {
    forall j | 0 <= j < |s| ensures !le(s[j], x) {
      if j > 0 { assert le(s[0], s[j]); }
    }
    FilterNone(s, Tied(le, y));
  }

  /** A filter no element passes keeps nothing. */
  lemma {:induction false} FilterNone<T(!new)>(s: seq<T>, keep: T -> bool)
    requires forall j :: 0 <= j < |s| ==> !keep(s[j])
    ensures Filter(s, keep) == []
  {
    if s != [] {
      FilterNone(s[1..], keep);
    }
  }

  /** The sort is stable: the elements tied with any `y` come out in the order they went in. */
  lemma {:induction false} SortByStable<T(!new)>(s: seq<T>, le: (T, T) -> bool)
    requires TotalPreorder(le)
    ensures forall y :: Filter(SortBy(s, le), Tied(le, y)) == Filter(s, Tied(le, y))
  {
    if s != [] {
      var init, last := s[..|s| - 1], s[|s| - 1];
      SortByStable(init, le);
      assert s == init + [last];
      forall y ensures Filter(SortBy(s, le), Tied(le, y)) == Filter(s, Tied(le, y)) {
        InsertStable(last, SortBy(init, le), le, y);
        FilterConcat(init, [last], Tied(le, y));
      }
    }
  }

  /** The first element kept by a filter is the first element of the input that passes: `k` is its index. */
  lemma {:induction false} FilterFirst<T(!new)>(s: seq<T>, keep: T -> bool) returns (k: nat)
    requires Filter(s, keep) != []
    ensures k < |s| && s[k] == Filter(s, keep)[0]
    ensures forall j :: 0 <= j < k ==> !keep(s[j])
  {
    FilterUnfold(s, keep);
    if keep(s[0]) {
      k := 0;
    } else {
      var i := FilterFirst(s[1..], keep);
      k := i + 1;
      forall j | 0 <= j < k ensures !keep(s[j]) {
        if j > 0 { assert s[j] == s[1..][j - 1]; }
      }
    }
  }

  /** Filtering twice is filtering once with both tests. */
  lemma {:induction false} FilterFilter<T(!new)>(s: seq<T>, a: T -> bool, b: T -> bool, both: T -> bool)
    requires forall x :: both(x) == (a(x) && b(x))
    ensures Filter(Filter(s, a), b) == Filter(s, both)
  {
    if s != [] {
      FilterFilter(s[1..], a, b, both);
      if a(s[0]) {
        FilterCons(s[0], Filter(s[1..], a), b);
      }
    }
  }

  /** The first element of a sorted permutation may stand before every element of the input. */
  lemma SortedHeadIsLeast<T(!new)>(s: seq<T>, le: (T, T) -> bool)
    requires TotalPreorder(le) && |s| > 0
    ensures SortBy(s, le)[0] in s
    ensures forall x :: x in s ==> le(SortBy(s, le)[0], x)
  {
    var r := SortBy(s, le);
    assert r[0] in multiset(r);
    forall x | x in s ensures le(r[0], x) {
      assert x in multiset(s);
      assert x in multiset(r);
      var k :| 0 <= k < |r| && r[k] == x;
      if k == 0 {
        assert le(x, x) || le(x, x);
      }
    }
  }

  ghost predicate Distinct<T>(s: seq<T>)
  {
    forall i, j :: 0 <= i < j < |s| ==> s[i] != s[j]
  }

  /** An element occurs at most once in a sequence without repetitions. */
  lemma {:induction false} DistinctCount<T>(s: seq<T>, x: T)
    requires Distinct(s)
    ensures multiset(s)[x] <= 1
  {
    if s != [] {
      assert s == [s[0]] + s[1..];
      DistinctCount(s[1..], x);
      if s[0] == x {
        assert x !in s[1..];
      }
    }
  }

  /** A rearrangement of a sequence without repetitions has none either. */
  lemma DistinctPermutation<T>(r: seq<T>, s: seq<T>)
    requires Distinct(s) && multiset(r) == multiset(s)
    ensures Distinct(r)
  {
    forall i, j | 0 <= i < j < |r| ensures r[i] != r[j] {
      if r[i] == r[j] {
        assert r == r[..i] + [r[i]] + r[i + 1..j] + [r[j]] + r[j + 1..];
        assert multiset(r)[r[i]] >= 2;
        DistinctCount(s, r[i]);
      }
    }
  }
}
