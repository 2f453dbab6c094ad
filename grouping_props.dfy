/**
 * What `groupWorksByProject` and `getProjectTitleSuggestions` promise:
 * the projects partition the works, every project is the sorted group of
 * one key, titles are unique, projects come largest first with ties in
 * first-seen order, and the suggestions are the distinct normalised titles
 * in ascending order.
 *
 * Most lemmas hold for any grouping key and are stated with `key` as a
 * parameter; the ones named after titles instantiate it with `TitleKey`.
 */
module GroupingProperties {
  import opened JsText
  import opened Works
  import opened Titles
  import opened ImageTypes
  import opened StableSort
  import opened Seqs
  import opened KeyedGroups
  import opened Grouping

  function TotalImages(p: OrganizedProject): int {
    p.totalImages
  }

  /** The projects before the final sort are titled with the keys in first-seen order. */
  lemma InMapOrderTitles(works: seq<WorkResource>, key: WorkResource -> string)
    ensures var keys := FirstSeenKeys(works, key);
      var r := ProjectsInMapOrder(works, key, keys);
      forall j :: 0 <= j < |r| ==> r[j].title == keys[j]
  {
    var keys := FirstSeenKeys(works, key);
    forall j | 0 <= j < |keys|
      ensures ProjectsInMapOrder(works, key, keys)[j].title == keys[j]
    {
      ProjectsInMapOrderAt(works, key, keys, j);
    }
  }

  lemma {:induction false} InMapSizes(works: seq<WorkResource>, key: WorkResource -> string, keys: seq<string>)
    requires forall j :: 0 <= j < |keys| ==> keys[j] in FirstSeenKeys(works, key)
    ensures SumBy(ProjectsInMapOrder(works, key, keys), TotalImages) == GroupSizes(works, key, keys)
  {
    if keys != [] {
      var ks := keys[..|keys| - 1];
      InMapSizes(works, key, ks);
      var r := ProjectsInMapOrder(works, key, keys);
      assert r[..|r| - 1] == ProjectsInMapOrder(works, key, ks);
    }
  }

  /** Partition: the projects' sizes add up to the number of works. */
  lemma GroupingPartitionsBy(works: seq<WorkResource>, key: WorkResource -> string)
    ensures SumBy(GroupedProjectsBy(works, key), TotalImages) == |works|
  {
    var r := ProjectsInMapOrder(works, key, FirstSeenKeys(works, key));
    SortByPermutes(r, ProjectBefore);
    SumByPermutation(GroupedProjectsBy(works, key), r, TotalImages);
    InMapSizes(works, key, FirstSeenKeys(works, key));
    GroupsPartition(works, key);
  }

  lemma GroupingPartitionsWorks(works: seq<WorkResource>)
    ensures SumBy(GroupedProjects(works), TotalImages) == |works|
  {
    GroupingPartitionsBy(works, TitleKey);
  }

  /** There are no projects exactly when there are no works. */
  lemma NoProjectsIffNoWorks(works: seq<WorkResource>)
    ensures GroupedProjects(works) == [] <==> works == []
  {
    GroupingPartitionsWorks(works);
  }

  lemma InMapMembers(works: seq<WorkResource>, key: WorkResource -> string, p: OrganizedProject)
    ensures p in ProjectsInMapOrder(works, key, FirstSeenKeys(works, key)) <==>
              exists k :: k in FirstSeenKeys(works, key) && p == ProjectOf(works, key, k)
  {
    var keys := FirstSeenKeys(works, key);
    var r := ProjectsInMapOrder(works, key, keys);
    if p in r {
      var j :| 0 <= j < |r| && r[j] == p;
      ProjectsInMapOrderAt(works, key, keys, j);
    }
    if k :| k in keys && p == ProjectOf(works, key, k) {
      var j :| 0 <= j < |keys| && keys[j] == k;
      ProjectsInMapOrderAt(works, key, keys, j);
      assert r[j] == p;
    }
  }

  /** The projects are exactly one per key, each built from its group. */
  lemma ProjectsAreGroupsBy(works: seq<WorkResource>, key: WorkResource -> string, p: OrganizedProject)
    ensures p in GroupedProjectsBy(works, key) <==>
              exists k :: k in FirstSeenKeys(works, key) && p == ProjectOf(works, key, k)
  {
    var r := ProjectsInMapOrder(works, key, FirstSeenKeys(works, key));
    var ps := GroupedProjectsBy(works, key);
    SortByPermutes(r, ProjectBefore);
    assert p in ps <==> p in multiset(ps);
    assert p in r <==> p in multiset(r);
    InMapMembers(works, key, p);
  }

  /**
   * The shape of every project: its title is a key, it is that key's
   * project, it holds as many images as the key has works (at least one),
   * and its description is that of its first image.
   */
  lemma ProjectShapeBy(works: seq<WorkResource>, key: WorkResource -> string, p: OrganizedProject)
    requires p in GroupedProjectsBy(works, key)
    ensures p.title in FirstSeenKeys(works, key)
    ensures p == ProjectOf(works, key, p.title)
    ensures p.images == Images(SortedGroup(works, key, p.title))
    ensures p.totalImages == |p.images| == |GroupOf(works, key, p.title)| > 0
    ensures p.description == p.images[0].description
  {
    ProjectsAreGroupsBy(works, key, p);
    var k :| k in FirstSeenKeys(works, key) && p == ProjectOf(works, key, k);
    GroupNonEmpty(works, key, k);
  }

  /** A project's images are the images of the works under its key. */
  lemma ProjectImagesBy(works: seq<WorkResource>, key: WorkResource -> string, p: OrganizedProject)
    requires p in GroupedProjectsBy(works, key)
    ensures forall img :: img in p.images <==> exists w :: w in works && key(w) == p.title && img == ToImage(w)
  {
    ProjectShapeBy(works, key, p);
    var g := GroupOf(works, key, p.title);
    var ws := SortedGroup(works, key, p.title);
    SortByPermutes(g, WorkPrecedes);
    assert forall w :: w in ws <==> w in g by {
      forall w ensures w in ws <==> w in g {
        assert w in ws <==> w in multiset(ws);
        assert w in g <==> w in multiset(g);
      }
    }
    GroupMembers(works, key, p.title);
    ImagesMembers(ws);
  }

  lemma InMapDistinct(works: seq<WorkResource>, key: WorkResource -> string)
    ensures Distinct(ProjectsInMapOrder(works, key, FirstSeenKeys(works, key)))
  {
    var keys := FirstSeenKeys(works, key);
    var r := ProjectsInMapOrder(works, key, keys);
    InMapOrderTitles(works, key);
    forall i, j | 0 <= i < j < |r| ensures r[i] != r[j] {
      assert r[i].title == keys[i] && r[j].title == keys[j];
    }
  }

  /** Project titles are distinct. */
  lemma ProjectTitlesDistinctBy(works: seq<WorkResource>, key: WorkResource -> string)
    ensures var ps := GroupedProjectsBy(works, key);
      forall i, j :: 0 <= i < j < |ps| ==> ps[i].title != ps[j].title
  {
    var keys := FirstSeenKeys(works, key);
    var r := ProjectsInMapOrder(works, key, keys);
    var ps := GroupedProjectsBy(works, key);
    InMapDistinct(works, key);
    InMapOrderTitles(works, key);
    SortByPermutes(r, ProjectBefore);
    DistinctPermutation(r, ps);
    forall i, j | 0 <= i < j < |ps| ensures ps[i].title != ps[j].title {
      assert ps[i] in multiset(r) && ps[j] in multiset(r);
      var a :| 0 <= a < |r| && r[a] == ps[i];
      var b :| 0 <= b < |r| && r[b] == ps[j];
      assert r[a].title == keys[a] && r[b].title == keys[b];
    }
  }

  lemma ProjectTitlesDistinct(works: seq<WorkResource>)
    ensures var ps := GroupedProjects(works);
      forall i, j :: 0 <= i < j < |ps| ==> ps[i].title != ps[j].title
  {
    ProjectTitlesDistinctBy(works, TitleKey);
  }

  /**
   * Every work is shown in a project, and the projects showing it are those
   * titled with its normalised title; with titles distinct that is exactly
   * one project.
   */
  lemma EveryWorkHasItsProjectBy(works: seq<WorkResource>, key: WorkResource -> string, w: WorkResource)
    requires w in works
    ensures exists p :: p in GroupedProjectsBy(works, key) && p.title == key(w) && ToImage(w) in p.images
  {
    FirstSeenKeysMembers(works, key);
    var i :| 0 <= i < |works| && works[i] == w;
    assert HasKey(works, key, key(w));
    var p := ProjectOf(works, key, key(w));
    ProjectsAreGroupsBy(works, key, p);
    ProjectImagesBy(works, key, p);
  }

  lemma EveryWorkHasItsProject(works: seq<WorkResource>, w: WorkResource)
    requires w in works
    ensures exists p :: p in GroupedProjects(works) && p.title == TitleKey(w) && ToImage(w) in p.images
  {
    EveryWorkHasItsProjectBy(works, TitleKey, w);
  }

  lemma ImageInProjectIff(works: seq<WorkResource>, w: WorkResource, p: OrganizedProject)
    requires w in works && p in GroupedProjects(works)
    ensures ToImage(w) in p.images <==> p.title == TitleKey(w)
  {
    ProjectImagesBy(works, TitleKey, p);
    if ToImage(w) in p.images {
      var w' :| w' in works && TitleKey(w') == p.title && ToImage(w) == ToImage(w');
      assert w.title == ToImage(w).title == w'.title;
    }
  }

  /** Every image title of a project normalises to the project's title. */
  lemma ImageTitlesNormalise(works: seq<WorkResource>, p: OrganizedProject, i: int)
    requires p in GroupedProjects(works) && 0 <= i < |p.images|
    ensures NormalizeProjectTitle(p.images[i].title) == p.title
  {
    ProjectImagesBy(works, TitleKey, p);
    assert p.images[i] in p.images;
    var w :| w in works && TitleKey(w) == p.title && p.images[i] == ToImage(w);
    assert p.images[i].title == w.title;
  }

  /**
   * Within a project the works are a stable sort of the key's group:
   * a reordering of it, sorted by the comparator.
   */
  lemma SortedGroupIsStableSort(works: seq<WorkResource>, key: WorkResource -> string, k: string)
    ensures var g := GroupOf(works, key, k);
      var ws := SortedGroup(works, key, k);
      multiset(ws) == multiset(g) && SortedBy(ws, WorkPrecedes) && StableArrangement(ws, g, WorkPrecedes)
  {
    var g := GroupOf(works, key, k);
    WorkPrecedesIsTotalPreorder();
    SortByPermutes(g, WorkPrecedes);
    SortByIsSorted(g, WorkPrecedes);
    SortByIsStable(g, WorkPrecedes);
  }

  /** Videos come first, then images in non-decreasing type priority. */
  lemma ProjectImagesOrdered(works: seq<WorkResource>, key: WorkResource -> string, p: OrganizedProject, i: int, j: int)
    requires p in GroupedProjectsBy(works, key) && 0 <= i < j < |p.images|
    ensures var ws := SortedGroup(works, key, p.title);
      && |ws| == |p.images|
      && p.images[i] == ToImage(ws[i]) && p.images[j] == ToImage(ws[j])
      && (HasVideo(ws[j]) ==> HasVideo(ws[i]))
      && (HasVideo(ws[i]) == HasVideo(ws[j]) ==> Priority(p.images[i].imageType) <= Priority(p.images[j].imageType))
  {
    ProjectShapeBy(works, key, p);
    SortedGroupIsStableSort(works, key, p.title);
    SortedWorksOrder(SortedGroup(works, key, p.title), i, j);
    ImagesAt(SortedGroup(works, key, p.title), i);
    ImagesAt(SortedGroup(works, key, p.title), j);
  }

  /** `TiedWith` is a filter. */
  lemma {:induction false} TiedWithIsFilter<T>(s: seq<T>, c: T, le: (T, T) -> bool)
    ensures TiedWith(s, c, le) == Filter(s, x => Tied(x, c, le))
  {
    if s != [] {
      TiedWithIsFilter(s[..|s| - 1], c, le);
    }
  }

  /**
   * Stability within a project: works that compare equal to `c` (same
   * video status and type) keep their input order.
   */
  lemma WorksOfEqualRankKeepInputOrder(works: seq<WorkResource>, key: WorkResource -> string, k: string, c: WorkResource)
    ensures Filter(SortedGroup(works, key, k), w => WorkSortKey(w) == WorkSortKey(c)) ==
            Filter(GroupOf(works, key, k), w => WorkSortKey(w) == WorkSortKey(c))
  {
    var g := GroupOf(works, key, k);
    var ws := SortedGroup(works, key, k);
    SortedGroupIsStableSort(works, key, k);
    TiedWithIsFilter(ws, c, WorkPrecedes);
    TiedWithIsFilter(g, c, WorkPrecedes);
    forall x ensures Tied(x, c, WorkPrecedes) == (WorkSortKey(x) == WorkSortKey(c)) {
      CompareWorksOrdersByKey(x, c);
      CompareWorksOrdersByKey(c, x);
    }
    FilterCongruent(ws, x => Tied(x, c, WorkPrecedes), w => WorkSortKey(w) == WorkSortKey(c));
    FilterCongruent(g, x => Tied(x, c, WorkPrecedes), w => WorkSortKey(w) == WorkSortKey(c));
  }

  /** Projects come largest first. */
  lemma ProjectsLargestFirstBy(works: seq<WorkResource>, key: WorkResource -> string)
    ensures var ps := GroupedProjectsBy(works, key);
      forall i, j :: 0 <= i < j < |ps| ==> ps[i].totalImages >= ps[j].totalImages
  {
    ProjectBeforeIsTotalPreorder();
    SortByIsSorted(ProjectsInMapOrder(works, key, FirstSeenKeys(works, key)), ProjectBefore);
  }

  /**
   * Projects of equal size keep their order in the `Map`, that is the order
   * in which their keys were first seen.
   */
  lemma EqualSizesKeepMapOrderBy(works: seq<WorkResource>, key: WorkResource -> string, n: int)
    ensures Filter(GroupedProjectsBy(works, key), (p: OrganizedProject) => p.totalImages == n) ==
            Filter(ProjectsInMapOrder(works, key, FirstSeenKeys(works, key)), (p: OrganizedProject) => p.totalImages == n)
  {
    var r := ProjectsInMapOrder(works, key, FirstSeenKeys(works, key));
    var ps := GroupedProjectsBy(works, key);
    var c := OrganizedProject("", "", [], n);
    ProjectBeforeIsTotalPreorder();
    SortByIsStable(r, ProjectBefore);
    TiedWithIsFilter(ps, c, ProjectBefore);
    TiedWithIsFilter(r, c, ProjectBefore);
    FilterCongruent(ps, x => Tied(x, c, ProjectBefore), (p: OrganizedProject) => p.totalImages == n);
    FilterCongruent(r, x => Tied(x, c, ProjectBefore), (p: OrganizedProject) => p.totalImages == n);
  }

  /**
   * The `Map` order is first-seen order: of two projects before the sort,
   * the earlier one's key has been seen after some prefix of the works in
   * which the later one's has not.
   */
  lemma MapOrderIsFirstSeenBy(works: seq<WorkResource>, key: WorkResource -> string, a: int, b: int)
    requires 0 <= a < b < |FirstSeenKeys(works, key)|
    ensures var r := ProjectsInMapOrder(works, key, FirstSeenKeys(works, key));
      exists n :: 0 <= n <= |works| && HasKey(works[..n], key, r[a].title) && !HasKey(works[..n], key, r[b].title)
  {
    InMapOrderTitles(works, key);
    FirstSeenOrder(works, key, a, b);
  }

  lemma ProjectsLargestFirst(works: seq<WorkResource>)
    ensures var ps := GroupedProjects(works);
      forall i, j :: 0 <= i < j < |ps| ==> ps[i].totalImages >= ps[j].totalImages
  {
    ProjectsLargestFirstBy(works, TitleKey);
  }

  lemma EqualSizesKeepFirstSeenOrder(works: seq<WorkResource>, n: int)
    ensures Filter(GroupedProjects(works), (p: OrganizedProject) => p.totalImages == n) ==
            Filter(ProjectsInMapOrder(works, TitleKey, FirstSeenKeys(works, TitleKey)), (p: OrganizedProject) => p.totalImages == n)
  {
    EqualSizesKeepMapOrderBy(works, TitleKey, n);
  }

  /** The default sort order on strings is a total preorder. */
  lemma LexLeIsTotalPreorder()
    ensures TotalPreorder(LexLe)
  {
    forall a, b ensures LexLe(a, b) || LexLe(b, a) {
      LexLeTotal(a, b);
    }
    forall a, b, c | LexLe(a, b) && LexLe(b, c) ensures LexLe(a, c) {
      LexLeTransitive(a, b, c);
    }
  }

  /** The suggestions are strictly ascending: sorted, without duplicates. */
  lemma SuggestionsStrictlyAscending(works: seq<WorkResource>)
    ensures var r := TitleSuggestions(works);
      forall i, j :: 0 <= i < j < |r| ==> LexLe(r[i], r[j]) && r[i] != r[j]
  {
    var keys := FirstSeenKeys(works, TitleKey);
    LexLeIsTotalPreorder();
    SortByIsSorted(keys, LexLe);
    SortByPermutes(keys, LexLe);
    DistinctPermutation(keys, TitleSuggestions(works));
  }

  /** The suggestions are exactly the normalised titles of the works. */
  lemma SuggestionsAreTheTitles(works: seq<WorkResource>)
    ensures forall t :: t in TitleSuggestions(works) <==> exists w :: w in works && TitleKey(w) == t
  {
    var keys := FirstSeenKeys(works, TitleKey);
    var r := TitleSuggestions(works);
    SortByPermutes(keys, LexLe);
    FirstSeenKeysMembers(works, TitleKey);
    forall t ensures t in r <==> exists w :: w in works && TitleKey(w) == t {
      assert t in r <==> t in multiset(r);
      assert t in keys <==> t in multiset(keys);
      if HasKey(works, TitleKey, t) {
        var i :| 0 <= i < |works| && TitleKey(works[i]) == t;
        assert works[i] in works;
      }
      if w :| w in works && TitleKey(w) == t {
        var i :| 0 <= i < |works| && works[i] == w;
        assert HasKey(works, TitleKey, t);
      }
    }
  }
}
