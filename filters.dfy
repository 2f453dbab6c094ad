/**
 * `transformApiResponse`, `filterWorksByCategory`, `filterWorksByTag` and
 * `searchWorks`. An optional argument is `undefined` (`None`) or a string;
 * a filter whose argument is falsy (absent or empty, and the category
 * `all`, and a search of blanks) returns its input unchanged, any other
 * keeps, in order, the works its test accepts.
 */
module Filters {
  import opened JsText
  import opened Works
  import opened Seqs

  /** `transformApiResponse`: the works are the response's `data`. */
  function TransformApiResponse(apiData: ApiResponse): seq<WorkResource> {
    apiData.data
  }

  /** Nothing is lost: the response can be rebuilt from its works, and the other way round. */
  lemma TransformApiResponseRoundTrip(apiData: ApiResponse, works: seq<WorkResource>)
    ensures ApiResponse(TransformApiResponse(apiData)) == apiData
    ensures TransformApiResponse(ApiResponse(works)) == works
  {
  }

  // ---------------------------------------------------------------- category

  /** `categorySlug` is truthy and not `all`. */
  predicate CategoryFilterApplies(categorySlug: Option<string>) {
    categorySlug.Some? && categorySlug.value != "" && categorySlug.value != "all"
  }

  /** `filterWorksByCategory` keeps `w`. */
  predicate KeptByCategory(w: WorkResource, categorySlug: Option<string>) {
    !CategoryFilterApplies(categorySlug) || w.category.slug == categorySlug.value
  }

  /** `filterWorksByCategory`. */
  function FilterWorksByCategory(works: seq<WorkResource>, categorySlug: Option<string>): (r: seq<WorkResource>)
    ensures IsSubsequence(r, works)
    ensures forall w :: multiset(r)[w] == if KeptByCategory(w, categorySlug) then multiset(works)[w] else 0
    ensures !CategoryFilterApplies(categorySlug) ==> r == works
  {
    if categorySlug.None? || categorySlug.value == "" || categorySlug.value == "all" then
      SubsequenceOfItself(works);
      works
    else
      var p := (w: WorkResource) => w.category.slug == categorySlug.value;
      FilterIsSubsequence(works, p);
      FilterCountsAll(works, p);
      Filter(works, p)
  }

  /** The category filter, early return included, is one `Array.prototype.filter`. */
  lemma CategoryFilterIsFilter(works: seq<WorkResource>, categorySlug: Option<string>)
    ensures FilterWorksByCategory(works, categorySlug) == Filter(works, w => KeptByCategory(w, categorySlug))
  {
    if !CategoryFilterApplies(categorySlug) {
      FilterKeepsAll(works, w => KeptByCategory(w, categorySlug));
    } else {
      FilterCongruent(works, (w: WorkResource) => w.category.slug == categorySlug.value, w => KeptByCategory(w, categorySlug));
    }
  }

  // --------------------------------------------------------------------- tag

  /** `work.tags.some(tag => tag.id.toString() === tagId)` */
  predicate HasTagId(tags: seq<Tag>, tagId: string) {
    exists i :: 0 <= i < |tags| && IntToString(tags[i].id) == tagId
  }

  predicate TagFilterApplies(tagId: Option<string>) {
    tagId.Some? && tagId.value != ""
  }

  /** `filterWorksByTag` keeps `w`. */
  predicate KeptByTag(w: WorkResource, tagId: Option<string>) {
    !TagFilterApplies(tagId) || HasTagId(w.tags, tagId.value)
  }

  /** `filterWorksByTag`. */
  function FilterWorksByTag(works: seq<WorkResource>, tagId: Option<string>): (r: seq<WorkResource>)
    ensures IsSubsequence(r, works)
    ensures forall w :: multiset(r)[w] == if KeptByTag(w, tagId) then multiset(works)[w] else 0
    ensures !TagFilterApplies(tagId) ==> r == works
  {
    if tagId.None? || tagId.value == "" then
      SubsequenceOfItself(works);
      works
    else
      var p := (w: WorkResource) => HasTagId(w.tags, tagId.value);
      FilterIsSubsequence(works, p);
      FilterCountsAll(works, p);
      Filter(works, p)
  }

  lemma TagFilterIsFilter(works: seq<WorkResource>, tagId: Option<string>)
    ensures FilterWorksByTag(works, tagId) == Filter(works, w => KeptByTag(w, tagId))
  {
    if !TagFilterApplies(tagId) {
      FilterKeepsAll(works, w => KeptByTag(w, tagId));
    } else {
      FilterCongruent(works, (w: WorkResource) => HasTagId(w.tags, tagId.value), w => KeptByTag(w, tagId));
    }
  }

  /**
   * Asking for the decimal text of an id selects exactly the works carrying
   * a tag with that id: distinct ids have distinct texts.
   */
  lemma TagIdTextSelectsTheId(tags: seq<Tag>, id: int)
    ensures HasTagId(tags, IntToString(id)) <==> exists i :: 0 <= i < |tags| && tags[i].id == id
  {
    if HasTagId(tags, IntToString(id)) {
      var i :| 0 <= i < |tags| && IntToString(tags[i].id) == IntToString(id);
      IntToStringInjective(tags[i].id, id);
    }
  }

  // ------------------------------------------------------------------ search

  /** A tag's English or Korean name, lower-cased, contains `term`. */
  predicate SomeTagNameContains(tags: seq<Tag>, term: string) {
    exists i :: 0 <= i < |tags| &&
      (Contains(ToLower(tags[i].name.en), term) || Contains(ToLower(tags[i].name.ko), term))
  }

  /** The search predicate on one work. */
  predicate MatchesTerm(w: WorkResource, term: string) {
    || Contains(ToLower(w.title), term)
    || Contains(ToLower(w.description), term)
    || SomeTagNameContains(w.tags, term)
  }

  /** `query` is truthy and not only blanks. */
  predicate SearchApplies(query: Option<string>) {
    query.Some? && query.value != "" && Trim(query.value) != ""
  }

  /** `query.toLowerCase().trim()` */
  function SearchTerm(query: string): string {
    Trim(ToLower(query))
  }

  /** `searchWorks` keeps `w`. */
  predicate KeptBySearch(w: WorkResource, query: Option<string>) {
    !SearchApplies(query) || MatchesTerm(w, SearchTerm(query.value))
  }

  /** `searchWorks`. */
  function SearchWorks(works: seq<WorkResource>, query: Option<string>): (r: seq<WorkResource>)
    ensures IsSubsequence(r, works)
    ensures forall w :: multiset(r)[w] == if KeptBySearch(w, query) then multiset(works)[w] else 0
    ensures !SearchApplies(query) ==> r == works
  {
    if query.None? || query.value == "" || Trim(query.value) == "" then
      SubsequenceOfItself(works);
      works
    else
      var searchTerm := ToLower(query.value);
      var searchTerm := Trim(searchTerm);
      var p := (w: WorkResource) => MatchesTerm(w, searchTerm);
      FilterIsSubsequence(works, p);
      FilterCountsAll(works, p);
      Filter(works, p)
  }

  lemma SearchIsFilter(works: seq<WorkResource>, query: Option<string>)
    ensures SearchWorks(works, query) == Filter(works, w => KeptBySearch(w, query))
  {
    if !SearchApplies(query) {
      FilterKeepsAll(works, w => KeptBySearch(w, query));
    } else {
      var term := SearchTerm(query.value);
      FilterCongruent(works, (w: WorkResource) => MatchesTerm(w, term), w => KeptBySearch(w, query));
    }
  }

  lemma TrimEmptyIffBlank(s: string)
    ensures Trim(s) == "" <==> AllWhitespace(s)
  {
    if Trim(s) == "" {
      var i, j :| 0 <= i <= j <= |s| && Trim(s) == s[i..j] && AllWhitespace(s[..i]) && AllWhitespace(s[j..]);
      assert s == s[..i] + s[j..];
      forall k | 0 <= k < |s| ensures IsWhitespace(s[k]) {
        if k < i { assert s[k] == s[..i][k]; } else { assert s[k] == s[j..][k - j]; }
      }
    }
    if AllWhitespace(s) && Trim(s) != "" {
      assert false;
    }
  }

  /**
   * Whenever the search filters at all, its term is not empty: a query of
   * blanks is caught before `includes` would match every work.
   */
  lemma SearchTermNonEmpty(query: string)
    requires SearchApplies(Some(query))
    ensures SearchTerm(query) != ""
  {
    TrimEmptyIffBlank(query);
    TrimEmptyIffBlank(ToLower(query));
    var k :| 0 <= k < |query| && !IsWhitespace(query[k]);
    assert ToLower(query)[k] == LowerChar(query[k]);
  }

  lemma ToLowerIdempotent(s: string)
    ensures ToLower(ToLower(s)) == ToLower(s)
  {
    assert forall i :: 0 <= i < |s| ==> ToLower(ToLower(s))[i] == ToLower(s)[i];
  }

  lemma LowerCharKeepsBlanks(c: char)
    ensures IsWhitespace(LowerChar(c)) == IsWhitespace(c)
  {
  }

  lemma ToLowerKeepsBlanks(s: string)
    ensures AllWhitespace(ToLower(s)) == AllWhitespace(s)
  {
    forall k | 0 <= k < |s| ensures IsWhitespace(ToLower(s)[k]) == IsWhitespace(s[k]) {
      LowerCharKeepsBlanks(s[k]);
    }
  }

  /** Lower-casing the query changes neither whether the search applies nor its term. */
  lemma SearchQueryCaseAgrees(query: string)
    ensures SearchApplies(Some(query)) == SearchApplies(Some(ToLower(query)))
    ensures SearchTerm(ToLower(query)) == SearchTerm(query)
  {
    ToLowerIdempotent(query);
    TrimEmptyIffBlank(query);
    TrimEmptyIffBlank(ToLower(query));
    ToLowerKeepsBlanks(query);
  }

  /** Searching is insensitive to the case of the query's ASCII letters. */
  lemma SearchIgnoresQueryCase(works: seq<WorkResource>, query: string)
    ensures SearchWorks(works, Some(query)) == SearchWorks(works, Some(ToLower(query)))
  {
    SearchQueryCaseAgrees(query);
    SearchIsFilter(works, Some(query));
    SearchIsFilter(works, Some(ToLower(query)));
    FilterCongruent(works, w => KeptBySearch(w, Some(query)), w => KeptBySearch(w, Some(ToLower(query))));
  }

  /** The three filters may be chained in any order. */
  lemma FiltersCommute(works: seq<WorkResource>, categorySlug: Option<string>, tagId: Option<string>, query: Option<string>)
    ensures FilterWorksByTag(FilterWorksByCategory(works, categorySlug), tagId) ==
            FilterWorksByCategory(FilterWorksByTag(works, tagId), categorySlug)
    ensures SearchWorks(FilterWorksByCategory(works, categorySlug), query) ==
            FilterWorksByCategory(SearchWorks(works, query), categorySlug)
    ensures SearchWorks(FilterWorksByTag(works, tagId), query) ==
            FilterWorksByTag(SearchWorks(works, query), tagId)
  {
    var c := w => KeptByCategory(w, categorySlug);
    var t := w => KeptByTag(w, tagId);
    var q := w => KeptBySearch(w, query);
    CategoryFilterIsFilter(works, categorySlug);
    TagFilterIsFilter(works, tagId);
    SearchIsFilter(works, query);
    CategoryFilterIsFilter(Filter(works, t), categorySlug);
    CategoryFilterIsFilter(Filter(works, q), categorySlug);
    TagFilterIsFilter(Filter(works, c), tagId);
    TagFilterIsFilter(Filter(works, q), tagId);
    SearchIsFilter(Filter(works, c), query);
    SearchIsFilter(Filter(works, t), query);
    FilterCommutes(works, c, t);
    FilterCommutes(works, c, q);
    FilterCommutes(works, t, q);
  }
}
