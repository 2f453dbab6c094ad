/**
 * `groupWorksByProject`, `sortWorksWithinProject` and
 * `getProjectTitleSuggestions`: works are keyed by their normalised title,
 * gathered into a `Map` in first-seen order, each group is sorted videos
 * first and by image type, turned into a project, and the projects are
 * sorted by size, largest first.
 */
module Grouping {
  import opened JsText
  import opened Works
  import opened Titles
  import opened ImageTypes
  import opened StableSort
  import opened Seqs
  import opened KeyedGroups

  /** The key a work is grouped under. */
  function TitleKey(w: WorkResource): string {
    NormalizeProjectTitle(w.title)
  }

  /** `work.optimize_attachment_url || work.attachment_url` */
  function ImageUrl(w: WorkResource): string {
    match w.optimizeAttachmentUrl
    case Some(u) => if u != "" then u else w.attachmentUrl
    case None => w.attachmentUrl
  }

  /** `work.tags.map(tag => tag.name.en)` */
  function EnglishTagNames(tags: seq<Tag>): (r: seq<string>)
    ensures |r| == |tags|
    ensures forall i :: 0 <= i < |tags| ==> r[i] == tags[i].name.en
  {
    if tags == [] then [] else [tags[0].name.en] + EnglishTagNames(tags[1..])
  }

  /** The image a work becomes in its project. */
  function ToImage(w: WorkResource): OrganizedProjectImage {
    OrganizedProjectImage(w.slug, ImageUrl(w), w.title, w.description, DetectImageTypeFromWork(w), EnglishTagNames(w.tags))
  }

  /** `sortedWorks.map(work => ({ ... }))` */
  function Images(ws: seq<WorkResource>): (r: seq<OrganizedProjectImage>)
    ensures |r| == |ws|
  {
    if ws == [] then [] else Images(ws[..|ws| - 1]) + [ToImage(ws[|ws| - 1])]
  }

  lemma ImagesMembers(ws: seq<WorkResource>)
    ensures forall img :: img in Images(ws) <==> exists w :: w in ws && img == ToImage(w)
  {
    forall img ensures img in Images(ws) <==> exists w :: w in ws && img == ToImage(w) {
      if img in Images(ws) {
        var i :| 0 <= i < |ws| && Images(ws)[i] == img;
        ImagesAt(ws, i);
      }
      if w :| w in ws && img == ToImage(w) {
        var i :| 0 <= i < |ws| && ws[i] == w;
        ImagesAt(ws, i);
      }
    }
  }

  /** Image `i` is the image of work `i`: the map keeps the order. */
  lemma {:induction false} ImagesAt(ws: seq<WorkResource>, i: int)
    requires 0 <= i < |ws|
    ensures Images(ws)[i] == ToImage(ws[i])
  {
    if i < |ws| - 1 {
      ImagesAt(ws[..|ws| - 1], i);
    }
  }

  /**
   * The pipeline below is written for any grouping key; `groupWorksByProject`
   * uses `TitleKey`. A group after `sortWorksWithinProject`:
   */
  function SortedGroup(works: seq<WorkResource>, key: WorkResource -> string, k: string): seq<WorkResource> {
    SortBy(GroupOf(works, key, k), WorkPrecedes)
  }

  /** The project `groupWorksByProject` builds from a sorted, non-empty group. */
  function ProjectFrom(title: string, sortedWorks: seq<WorkResource>): (p: OrganizedProject)
    requires |sortedWorks| > 0
    ensures p.totalImages == |p.images| == |sortedWorks|
    ensures p.description == p.images[0].description
  {
    var images := Images(sortedWorks);
    ImagesAt(sortedWorks, 0);
    OrganizedProject(title, sortedWorks[0].description, images, |images|)
  }

  function ProjectOf(works: seq<WorkResource>, key: WorkResource -> string, k: string): OrganizedProject
    requires k in FirstSeenKeys(works, key)
  {
    GroupNonEmpty(works, key, k);
    ProjectFrom(k, SortedGroup(works, key, k))
  }

  /** `organizedProjects` before the final sort: one project per key, in map order. */
  function ProjectsInMapOrder(works: seq<WorkResource>, key: WorkResource -> string, keys: seq<string>): (r: seq<OrganizedProject>)
    requires forall j :: 0 <= j < |keys| ==> keys[j] in FirstSeenKeys(works, key)
    ensures |r| == |keys|
  {
    if keys == [] then []
    else ProjectsInMapOrder(works, key, keys[..|keys| - 1]) + [ProjectOf(works, key, keys[|keys| - 1])]
  }

  lemma {:induction false} ProjectsInMapOrderAt(works: seq<WorkResource>, key: WorkResource -> string, keys: seq<string>, j: int)
    requires forall j :: 0 <= j < |keys| ==> keys[j] in FirstSeenKeys(works, key)
    requires 0 <= j < |keys|
    ensures ProjectsInMapOrder(works, key, keys)[j] == ProjectOf(works, key, keys[j])
  {
    if j < |keys| - 1 {
      ProjectsInMapOrderAt(works, key, keys[..|keys| - 1], j);
    }
  }

  /** The comparator `(a, b) => b.totalImages - a.totalImages` as an ordering. */
  predicate ProjectBefore(a: OrganizedProject, b: OrganizedProject) {
    b.totalImages - a.totalImages <= 0
  }

  lemma ProjectBeforeIsTotalPreorder()
    ensures TotalPreorder(ProjectBefore)
  {
  }

  function GroupedProjectsBy(works: seq<WorkResource>, key: WorkResource -> string): seq<OrganizedProject> {
    SortBy(ProjectsInMapOrder(works, key, FirstSeenKeys(works, key)), ProjectBefore)
  }

  /** What `groupWorksByProject` returns. */
  function GroupedProjects(works: seq<WorkResource>): seq<OrganizedProject> {
    GroupedProjectsBy(works, TitleKey)
  }

  /** What `getProjectTitleSuggestions` returns. */
  function TitleSuggestions(works: seq<WorkResource>): seq<string> {
    SortBy(FirstSeenKeys(works, TitleKey), LexLe)
  }

  /** `sortWorksWithinProject`: sorts the group in place. */
  method SortWorksWithinProject(works: array<WorkResource>)
    modifies works
    ensures works[..] == SortBy(old(works[..]), WorkPrecedes)
  {
    SortInPlace(works, WorkPrecedes);
  }

  /** The body of `projectMap.forEach`: one group becomes one project. */
  method BuildProject(projectTitle: string, projectWorks: seq<WorkResource>) returns (project: OrganizedProject)
    requires |projectWorks| > 0
    ensures project.title == projectTitle
    ensures project.totalImages == |projectWorks|
    ensures project == ProjectFrom(projectTitle, SortBy(projectWorks, WorkPrecedes))
  {
    var group := new WorkResource[|projectWorks|](n requires 0 <= n < |projectWorks| => projectWorks[n]);
    assert group[..] == projectWorks;
    SortWorksWithinProject(group);
    var sortedWorks := group[..];
    SortByPermutes(projectWorks, WorkPrecedes);
    assert |sortedWorks| == |multiset(sortedWorks)| == |multiset(projectWorks)|;
    var images := Images(sortedWorks);
    project := OrganizedProject(projectTitle, sortedWorks[0].description, images, |images|);
  }

  /** `projectMap.forEach`: one project per entry, in the order of the keys. */
  method ProjectsFromMap(works: seq<WorkResource>, key: WorkResource -> string, keys: seq<string>, projectMap: map<string, seq<WorkResource>>)
    returns (organizedProjects: seq<OrganizedProject>)
    requires keys == FirstSeenKeys(works, key)
    requires forall k :: k in projectMap <==> k in keys
    requires forall k :: k in projectMap ==> projectMap[k] == GroupOf(works, key, k)
    ensures organizedProjects == ProjectsInMapOrder(works, key, keys)
  {
    organizedProjects := [];
    for j := 0 to |keys|
      invariant organizedProjects == ProjectsInMapOrder(works, key, keys[..j])
    {
      var projectTitle := keys[j];
      GroupNonEmpty(works, key, projectTitle);
      var project := BuildProject(projectTitle, projectMap[projectTitle]);
      organizedProjects := organizedProjects + [project];
      assert keys[..j + 1][..j] == keys[..j];
    }
    assert keys[..|keys|] == keys;
  }

  /**
   * `groupWorksByProject` with the grouping key as a parameter: the `Map` is
   * filled, each entry becomes a project, the projects are sorted by size.
   */
  method GroupWorksBy(works: seq<WorkResource>, key: WorkResource -> string) returns (projects: seq<OrganizedProject>)
    ensures projects == GroupedProjectsBy(works, key)
  {
    // `projectMap`: its keys in insertion order, and its entries.
    var keys, projectMap := GroupByKey(works, key);
    var organizedProjects := ProjectsFromMap(works, key, keys, projectMap);
    var sorted := new OrganizedProject[|organizedProjects|](n requires 0 <= n < |organizedProjects| => organizedProjects[n]);
    assert sorted[..] == organizedProjects;
    SortInPlace(sorted, ProjectBefore);
    projects := sorted[..];
  }

  /** `groupWorksByProject`: works grouped under their normalised titles. */
  method GroupWorksByProject(works: seq<WorkResource>) returns (projects: seq<OrganizedProject>)
    ensures projects == GroupedProjects(works)
  {
    projects := GroupWorksBy(works, TitleKey);
  }

  /** `getProjectTitleSuggestions`. */
  method GetProjectTitleSuggestions(works: seq<WorkResource>) returns (suggestions: seq<string>)
    ensures suggestions == TitleSuggestions(works)
  {
    // The `Set`, as its elements in insertion order.
    var titles := DistinctKeys(works, TitleKey);
    var a := new string[|titles|](n requires 0 <= n < |titles| => titles[n]);
    assert a[..] == titles;
    SortInPlace(a, LexLe);
    suggestions := a[..];
  }
}
