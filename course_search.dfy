/** The course search (server/routes/course.js): the query string becomes a
    database filter and a sort order, and at most 50 courses are returned. */
module CourseSearch {
  import opened Base
  import opened JsStrings
  import opened Seqs
  import opened CourseModel

  /** The query string. A price bound is `Some` when its parameter is a
      non-empty string (so a bound of `"0"` is given), holding its parsed value. */
  datatype SearchQuery = SearchQuery(query: Option<string>, category: Option<string>,
                                     priceMin: Option<int>, priceMax: Option<int>,
                                     sort: Option<string>)

  // ------------------------------------------------- the reference meaning

  /** `text` occurs in the field, ignoring case. */
  predicate MatchesText(field: string, text: string) {
    Contains(Lower(field), Lower(text))
  }

  /** Which courses the search means: a non-empty `query` must occur in the
      title or the description (ignoring case), a non-empty `category` must be
      the course's category, and the price must lie within each bound given. */
  predicate Matches(c: Course, q: SearchQuery) {
    && (TruthyOpt(q.query) ==>
          MatchesText(c.title, q.query.value)
          || (c.description.Some? && MatchesText(c.description.value, q.query.value)))
    && (TruthyOpt(q.category) ==> c.category == q.category)
    && (q.priceMin.Some? ==> c.price >= q.priceMin.value)
    && (q.priceMax.Some? ==> c.price <= q.priceMax.value)
  }

  // -------------------------------------------------- the filter document

  datatype PriceRange = PriceRange(gte: Option<int>, lte: Option<int>)

  /** The filter document: `$or` over title and description, `category`, and
      `price` with `$gte`/`$lte`; `None` where the key is not set. */
  datatype Filters = Filters(or: Option<string>, category: Option<string>, price: Option<PriceRange>)

  /** Lines 9-21: each key is set only when its parameter is truthy. */
  function BuildFilters(q: SearchQuery): (f: Filters)
    ensures f.or.Some? <==> TruthyOpt(q.query)
    ensures f.category.Some? <==> TruthyOpt(q.category)
    ensures f.price.Some? <==> q.priceMin.Some? || q.priceMax.Some?
  {
    Filters(
      if TruthyOpt(q.query) then q.query else None,
      if TruthyOpt(q.category) then q.category else None,
      if q.priceMin.Some? || q.priceMax.Some? then Some(PriceRange(q.priceMin, q.priceMax)) else None)
  }

  /** How the database applies a filter document to a course: a case-insensitive
      `$regex` on a missing field does not match, nor does an equality on one. */
  predicate Satisfies(c: Course, f: Filters) {
    && (f.or.Some? ==>
          MatchesText(c.title, f.or.value)
          || (c.description.Some? && MatchesText(c.description.value, f.or.value)))
    && (f.category.Some? ==> c.category == f.category)
    && (f.price.Some? ==>
          && (f.price.value.gte.Some? ==> c.price >= f.price.value.gte.value)
          && (f.price.value.lte.Some? ==> c.price <= f.price.value.lte.value))
  }

  /** The filter document built from the query selects exactly the courses the
      search means. */
  lemma BuildFiltersCorrect(c: Course, q: SearchQuery)
    ensures Satisfies(c, BuildFilters(q)) <==> Matches(c, q)
  {
  }

  // ------------------------------------------------------------- the sort

  datatype SortField = ByPrice | ByRating | ByCreatedAt

  /** Lines 23-27: the sort field and whether it is descending. */
  function SortOf(sort: Option<string>): (r: (SortField, bool))
    ensures sort == Some("price_asc") ==> r == (ByPrice, false)
    ensures sort == Some("price_desc") ==> r == (ByPrice, true)
    ensures sort == Some("rating") ==> r == (ByRating, true)
    ensures sort !in {Some("price_asc"), Some("price_desc"), Some("rating")} ==> r == (ByCreatedAt, true)
  {
    if sort == Some("price_asc") then (ByPrice, false)
    else if sort == Some("price_desc") then (ByPrice, true)
    else if sort == Some("rating") then (ByRating, true)
    else (ByCreatedAt, true)
  }

  function KeyOf(field: SortField): Course -> Key {
    match field
    case ByPrice => (c: Course) => Val(c.price as real)
    case ByRating => (c: Course) => if c.rating.Some? then Val(c.rating.value) else Missing
    case ByCreatedAt => (c: Course) => Val(c.createdAt as real)
  }

  const Limit := 50

  /** A prefix of a sorted list is sorted. */
  lemma SortedPrefix<T>(s: seq<T>, n: nat, key: T -> Key, desc: bool)
    requires SortedBy(s, key, desc) && n <= |s|
    ensures SortedBy(s[..n], key, desc)
  {
    assert forall i :: 0 <= i < n ==> s[..n][i] == s[i];
  }

  /** The first `n` of a sort of `s`: sorted, drawn from `s`, all of `s`
      when `s` has at most `n` elements, and otherwise `n` elements none of
      which sorts after an element left out. */
  lemma SortedTake<T>(s: seq<T>, n: nat, key: T -> Key, desc: bool)
    ensures var r := Take(SortBy(s, key, desc), n);
            && (forall k :: 0 <= k < |r| ==> r[k] in s)
            && SortedBy(r, key, desc)
            && (|s| <= n ==> multiset(r) == multiset(s))
            && (|s| > n ==> |r| == n)
            && (forall x, k :: 0 <= k < |r| && x in s && x !in r ==> Before(desc, key(r[k]), key(x)))
  {
    var sorted := SortBy(s, key, desc);
    var r := Take(sorted, n);
    forall k | 0 <= k < |r| ensures r[k] in s {
      assert r[k] == sorted[k];
      assert sorted[k] in multiset(sorted);
    }
    SortedPrefix(sorted, |r|, key, desc);
    assert |sorted| == |multiset(sorted)| == |multiset(s)| == |s|;
    forall x, k | 0 <= k < |r| && x in s && x !in r ensures Before(desc, key(r[k]), key(x)) {
      assert x in multiset(sorted);
      var j :| 0 <= j < |sorted| && sorted[j] == x;
      assert r[k] == sorted[k];
    }
  }

  /** `Course.find(filters).sort(sortOption).limit(50)`: at most 50 courses, all
      of them matching, in the requested order; when at most 50 match, exactly
      the matching courses; otherwise 50 of them. */
  function Search(cs: seq<Course>, q: SearchQuery): (r: seq<Course>)
    ensures |r| <= Limit
    ensures forall k :: 0 <= k < |r| ==> r[k] in cs && Matches(r[k], q)
    ensures SortedBy(r, KeyOf(SortOf(q.sort).0), SortOf(q.sort).1)
    ensures Count(cs, (c: Course) => Matches(c, q)) <= Limit ==>
              multiset(r) == multiset(Filter(cs, (c: Course) => Matches(c, q)))
    ensures Count(cs, (c: Course) => Matches(c, q)) > Limit ==> |r| == Limit
    // the courses returned are the first in the requested order: no matching
    // course left out sorts before any of them
    ensures forall c, k :: 0 <= k < |r| && c in cs && Matches(c, q) && c !in r ==>
              Before(SortOf(q.sort).1, KeyOf(SortOf(q.sort).0)(r[k]), KeyOf(SortOf(q.sort).0)(c))
  {
    var f := BuildFilters(q);
    var sat := (c: Course) => Satisfies(c, f);
    var mat := (c: Course) => Matches(c, q);
    forall c ensures sat(c) == mat(c) {
      BuildFiltersCorrect(c, q);
    }
    FilterAgree(cs, sat, mat);
    FilterCount(cs, mat);
    var (field, desc) := SortOf(q.sort);
    SortedTake(Filter(cs, sat), Limit, KeyOf(field), desc);
    Take(SortBy(Filter(cs, sat), KeyOf(field), desc), Limit)
  }
}
