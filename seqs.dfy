/** Array operations the handlers and pages apply to documents' lists:
    `findIndex`, `filter`, `map`-replace, `splice(i, 1)` and a sort by one key,
    each with what it keeps and what it changes. */
module Seqs {
  import opened Base

  // ----------------------------------------------------------- find index

  /** `s.findIndex(p)`: the first position whose element satisfies `p`. */
  function FirstIndex<T>(s: seq<T>, p: T -> bool): (r: Option<nat>)
    ensures r.Some? ==> r.value < |s| && p(s[r.value])
    ensures r.Some? ==> forall j :: 0 <= j < r.value ==> !p(s[j])
    ensures r.None? ==> forall j :: 0 <= j < |s| ==> !p(s[j])
  {
    if s == [] then None
    else if p(s[0]) then Some(0)
    else
      match FirstIndex(s[1..], p)
      case None => None
      case Some(k) => Some(k + 1)
  }

  /** The first element that satisfies `p` is the one `FirstIndex` finds. */
  lemma {:induction false} FirstIndexAt<T>(s: seq<T>, p: T -> bool, i: nat)
    requires i < |s| && p(s[i])
    requires forall k :: 0 <= k < i ==> !p(s[k])
    ensures FirstIndex(s, p) == Some(i)
  {
    if i > 0 {
      forall k | 0 <= k < i - 1 ensures !p(s[1..][k]) {
        assert s[1..][k] == s[k + 1];
      }
      assert s[1..][i - 1] == s[i];
      FirstIndexAt(s[1..], p, i - 1);
    }
  }

  /** Some element satisfies `p` (`s.some(p)`). */
  predicate Any<T>(s: seq<T>, p: T -> bool) {
    exists i :: 0 <= i < |s| && p(s[i])
  }

  lemma FirstIndexFound<T>(s: seq<T>, p: T -> bool)
    ensures FirstIndex(s, p).Some? <==> Any(s, p)
  {
  }

  // --------------------------------------------------------------- filter

  /** `a` is an order-preserving subsequence of `b`. */
  predicate IsSubseq<T(==)>(a: seq<T>, b: seq<T>)
    decreases |b|
  {
    if a == [] then true
    else if b == [] then false
    else if a[0] == b[0] then IsSubseq(a[1..], b[1..])
    else IsSubseq(a, b[1..])
  }

  /** `s.filter(p)`. */
  function Filter<T>(s: seq<T>, p: T -> bool): (r: seq<T>)
    ensures |r| <= |s|
    ensures forall i :: 0 <= i < |r| ==> p(r[i])
    ensures forall i :: 0 <= i < |s| && p(s[i]) ==> s[i] in r
    ensures forall x :: x in r ==> x in s
  {
    if s == [] then []
    else
      var rest := Filter(s[1..], p);
      assert forall i :: 1 <= i < |s| ==> s[i] == s[1..][i - 1];
      if p(s[0]) then [s[0]] + rest else rest
  }

  /** Filtering keeps the order of the survivors. */
  lemma {:induction false} FilterIsSubseq<T>(s: seq<T>, p: T -> bool)
    ensures IsSubseq(Filter(s, p), s)
  {
    if s != [] {
      FilterIsSubseq(s[1..], p);
      if !p(s[0]) {
        SubseqSkip(Filter(s[1..], p), s);
      }
    }
  }

  /** Every list is a subsequence of itself. */
  lemma {:induction false} SubseqRefl<T>(s: seq<T>)
    ensures IsSubseq(s, s)
  {
    if s != [] {
      SubseqRefl(s[1..]);
    }
  }

  /** Dropping the head of `b` keeps a subsequence of its tail a subsequence of `b`. */
  lemma {:induction false} SubseqSkip<T>(a: seq<T>, b: seq<T>)
    requires b != [] && IsSubseq(a, b[1..])
    ensures IsSubseq(a, b)
    decreases |b|
  {
    if a != [] && a[0] == b[0] {
      // a[0] also occurs in b[1..] at its matching position; the tail of a is
      // then a subsequence of what follows that position.
      SubseqTail(a, b[1..]);
      SubseqSkip(a[1..], b[1..]);
    }
  }

  /** A non-empty subsequence's tail is a subsequence of the container's tail
      once the container's head is dropped. */
  lemma {:induction false} SubseqTail<T>(a: seq<T>, b: seq<T>)
    requires a != [] && IsSubseq(a, b)
    ensures b != [] && IsSubseq(a[1..], b[1..])
    decreases |b|
  {
    if a[0] != b[0] {
      SubseqTail(a, b[1..]);
      SubseqSkip(a[1..], b[1..]);
    }
  }

  /** Filtering distributes over appending one element (what a `forEach` loop
      that pushes the survivors builds up). */
  lemma {:induction false} FilterSnoc<T>(s: seq<T>, x: T, p: T -> bool)
    ensures Filter(s + [x], p) == Filter(s, p) + (if p(x) then [x] else [])
  {
    if s == [] {
      assert [x][1..] == [];
    } else {
      assert (s + [x])[1..] == s[1..] + [x];
      FilterSnoc(s[1..], x, p);
    }
  }

  /** Filtering with two tests that agree on every element gives one result. */
  lemma {:induction false} FilterAgree<T>(s: seq<T>, p: T -> bool, q: T -> bool)
    requires forall x :: p(x) == q(x)
    ensures Filter(s, p) == Filter(s, q)
  {
    if s != [] {
      FilterAgree(s[1..], p, q);
    }
  }

  /** The number of elements that satisfy `p`. */
  function Count<T>(s: seq<T>, p: T -> bool): (n: nat)
    ensures n <= |s|
  {
    if s == [] then 0 else (if p(s[0]) then 1 else 0) + Count(s[1..], p)
  }

  lemma {:induction false} FilterCount<T>(s: seq<T>, p: T -> bool)
    ensures |Filter(s, p)| == Count(s, p)
  {
    if s != [] {
      FilterCount(s[1..], p);
    }
  }

  // ------------------------------------------------------- splice, replace

  /** `s.splice(i, 1)` for an index inside the list. */
  function RemoveAt<T>(s: seq<T>, i: nat): (r: seq<T>)
    requires i < |s|
    ensures |r| == |s| - 1
    ensures forall k :: 0 <= k < i ==> r[k] == s[k]
    ensures forall k :: i <= k < |r| ==> r[k] == s[k + 1]
  {
    s[..i] + s[i + 1..]
  }

  /** Removing one element takes exactly that element out of the multiset. */
  lemma RemoveAtMultiset<T>(s: seq<T>, i: nat)
    requires i < |s|
    ensures multiset(s) == multiset(RemoveAt(s, i)) + multiset{s[i]}
  {
    assert s == s[..i] + [s[i]] + s[i + 1..];
  }

  /** Where `Array.prototype.splice(start, …)` starts for a list of length
      `len`: a negative start counts from the end, and the result is clamped to
      `0..len`. */
  function SpliceStart(len: nat, start: int): (k: nat)
    ensures k <= len
    ensures 0 <= start <= len ==> k == start
    ensures -(len as int) <= start < 0 ==> k == len + start
    ensures start < -(len as int) ==> k == 0
    ensures start > len ==> k == len
  {
    if start < 0 then (if len + start < 0 then 0 else len + start)
    else if start > len then len
    else start
  }

  /** `s.splice(start, 1)`, for any integer `start`. */
  function SpliceOne<T>(s: seq<T>, start: int): seq<T> {
    var k := SpliceStart(|s|, start);
    if k < |s| then RemoveAt(s, k) else s
  }

  /** `splice(start, 1)` at an index inside the list removes exactly that element,
      a negative index removes the element that far from the end, and an index at
      or past the end changes nothing. */
  lemma SpliceOneCases<T>(s: seq<T>, start: int)
    ensures 0 <= start < |s| ==> SpliceOne(s, start) == RemoveAt(s, start)
    ensures -|s| <= start < 0 ==> SpliceOne(s, start) == RemoveAt(s, |s| + start)
    ensures start >= |s| ==> SpliceOne(s, start) == s
    ensures start < -|s| && s != [] ==> SpliceOne(s, start) == s[1..]
  {
  }

  /** `s.map(x => p(x) ? v : x)`. */
  function ReplaceWhere<T>(s: seq<T>, p: T -> bool, v: T): (r: seq<T>)
    ensures |r| == |s|
    ensures forall k :: 0 <= k < |s| ==> r[k] == (if p(s[k]) then v else s[k])
  {
    seq(|s|, k requires 0 <= k < |s| => if p(s[k]) then v else s[k])
  }

  // ------------------------------------------------------------------ sort

  /** A sort key; a missing field sorts before every value (as in Mongo). */
  datatype Key = Missing | Val(x: real)

  predicate KeyLe(a: Key, b: Key) {
    a.Missing? || (b.Val? && a.x <= b.x)
  }

  /** `a` may come before `b` in a sort ascending (or descending, when `desc`). */
  predicate Before(desc: bool, a: Key, b: Key) {
    if desc then KeyLe(b, a) else KeyLe(a, b)
  }

  lemma BeforeTotalPreorder(desc: bool, a: Key, b: Key, c: Key)
    ensures Before(desc, a, b) || Before(desc, b, a)
    ensures Before(desc, a, b) && Before(desc, b, c) ==> Before(desc, a, c)
  {
  }

  predicate SortedBy<T>(s: seq<T>, key: T -> Key, desc: bool) {
    forall i, j :: 0 <= i < j < |s| ==> Before(desc, key(s[i]), key(s[j]))
  }

  /** `x` placed before the first element it may precede. */
  function Insert<T>(x: T, s: seq<T>, key: T -> Key, desc: bool): (r: seq<T>)
    ensures multiset(r) == multiset(s) + multiset{x}
  {
    if s == [] then [x]
    else if Before(desc, key(x), key(s[0])) then [x] + s
    else
      assert s == [s[0]] + s[1..];
      [s[0]] + Insert(x, s[1..], key, desc)
  }

  lemma SortedTail<T>(s: seq<T>, key: T -> Key, desc: bool)
    requires s != [] && SortedBy(s, key, desc)
    ensures SortedBy(s[1..], key, desc)
  {
    forall i, j | 0 <= i < j < |s| - 1 ensures Before(desc, key(s[1..][i]), key(s[1..][j])) {
      assert s[1..][i] == s[i + 1] && s[1..][j] == s[j + 1];
    }
  }

  /** Inserting into a sorted sequence keeps it sorted. */
  lemma {:induction false} InsertSorted<T>(x: T, s: seq<T>, key: T -> Key, desc: bool)
    requires SortedBy(s, key, desc)
    ensures SortedBy(Insert(x, s, key, desc), key, desc)
  {
    if s != [] {
      if Before(desc, key(x), key(s[0])) {
        var r := [x] + s;
        forall i, j | 0 <= i < j < |r| ensures Before(desc, key(r[i]), key(r[j])) {
          if i == 0 {
            BeforeTotalPreorder(desc, key(x), key(s[0]), key(r[j]));
          } else {
            assert r[i] == s[i - 1] && r[j] == s[j - 1];
          }
        }
      } else {
        var rest := Insert(x, s[1..], key, desc);
        SortedTail(s, key, desc);
        InsertSorted(x, s[1..], key, desc);
        BeforeTotalPreorder(desc, key(x), key(s[0]), key(s[0]));
        forall i | 0 <= i < |rest| ensures Before(desc, key(s[0]), key(rest[i])) {
          assert rest[i] in multiset(rest);
          if rest[i] != x {
            var j :| 0 <= j < |s[1..]| && s[1..][j] == rest[i];
            assert s[j + 1] == rest[i];
          }
        }
        var r := [s[0]] + rest;
        forall i, j | 0 <= i < j < |r| ensures Before(desc, key(r[i]), key(r[j])) {
          assert r[j] == rest[j - 1];
          if i > 0 {
            assert r[i] == rest[i - 1];
          }
        }
      }
    }
  }

  /** A sort of `s` by `key`: sorted, and a permutation of `s`. */
  function SortBy<T>(s: seq<T>, key: T -> Key, desc: bool): (r: seq<T>)
    ensures SortedBy(r, key, desc)
    ensures multiset(r) == multiset(s)
  {
    if s == [] then []
    else
      assert s == [s[0]] + s[1..];
      InsertSorted(s[0], SortBy(s[1..], key, desc), key, desc);
      Insert(s[0], SortBy(s[1..], key, desc), key, desc)
  }

  /** A sort keeps exactly the elements it was given. */
  lemma SortByMembers<T>(s: seq<T>, key: T -> Key, desc: bool)
    ensures forall x :: x in SortBy(s, key, desc) <==> x in s
  {
    var r := SortBy(s, key, desc);
    forall x ensures x in r <==> x in s {
      assert x in r <==> x in multiset(r);
      assert x in s <==> x in multiset(s);
    }
  }

  /** `s.slice(0, n)` — `limit(n)` on a query. */
  function Take<T>(s: seq<T>, n: nat): (r: seq<T>)
    ensures |r| <= n && |r| <= |s|
    ensures |s| <= n ==> r == s
    ensures r == s[..|r|]
  {
    if |s| <= n then s else s[..n]
  }
}
