/**
 * `detectImageTypeFromWork` and the comparator `sortWorksWithinProject`
 * hands to `Array.prototype.sort`.
 */
module ImageTypes {
  import opened JsText
  import opened Works
  import StableSort

  /** `typePriority`: Hero first, Concept last. */
  function Priority(t: ImageType): (p: int)
    ensures 1 <= p <= 6
  {
    match t
    case Hero => 1
    case Aerial => 2
    case Exterior => 3
    case Interior => 4
    case Detail => 5
    case Concept => 6
  }

  /** `work.tags.map(tag => tag.name.en.toLowerCase())` */
  function LowerTagNames(tags: seq<Tag>): (r: seq<string>)
    ensures |r| == |tags|
    ensures forall i :: 0 <= i < |tags| ==> r[i] == ToLower(tags[i].name.en)
  {
    if tags == [] then [] else [ToLower(tags[0].name.en)] + LowerTagNames(tags[1..])
  }

  /** `detectImageTypeFromWork`: tag names first, then title keywords, then Hero. */
  function DetectImageTypeFromWork(w: WorkResource): ImageType {
    var tags := LowerTagNames(w.tags);
    var title := ToLower(w.title);
    if "aerial" in tags then Aerial
    else if "exterior" in tags then Exterior
    else if "interior" in tags then Interior
    else if Contains(title, "aerial") || Contains(title, "bird") then Aerial
    else if Contains(title, "exterior") || Contains(title, "outside") || Contains(title, "facade") then Exterior
    else if Contains(title, "interior") || Contains(title, "inside") || Contains(title, "room") then Interior
    else if Contains(title, "detail") || Contains(title, "close") then Detail
    else if Contains(title, "concept") || Contains(title, "sketch") then Concept
    else Hero
  }

  /** The classification rules as a table, in the order they are tried. */
  const TagRules: seq<(string, ImageType)> :=
    [("aerial", Aerial), ("exterior", Exterior), ("interior", Interior)]

  const TitleRules: seq<(seq<string>, ImageType)> := [
    (["aerial", "bird"], Aerial),
    (["exterior", "outside", "facade"], Exterior),
    (["interior", "inside", "room"], Interior),
    (["detail", "close"], Detail),
    (["concept", "sketch"], Concept)
  ]

  /** Tag rule `i` fires: some tag name, lower-cased, is exactly its word. */
  predicate TagRuleFires(w: WorkResource, i: int) {
    0 <= i < |TagRules| && TagRules[i].0 in LowerTagNames(w.tags)
  }

  /** `s` contains one of `words`. */
  predicate ContainsAny(s: string, words: seq<string>) {
    |words| > 0 && (Contains(s, words[0]) || ContainsAny(s, words[1..]))
  }

  lemma {:induction false} ContainsAnyMeans(s: string, words: seq<string>)
    ensures ContainsAny(s, words) <==> exists k :: 0 <= k < |words| && Contains(s, words[k])
  {
    if |words| > 0 {
      ContainsAnyMeans(s, words[1..]);
      if ContainsAny(s, words[1..]) {
        var k :| 0 <= k < |words[1..]| && Contains(s, words[1..][k]);
        assert Contains(s, words[k + 1]);
      }
      if k :| 0 <= k < |words| && Contains(s, words[k]) {
        if k > 0 { assert words[1..][k - 1] == words[k]; }
      }
    }
  }

  lemma ContainsAnyOfTwo(s: string, a: string, b: string)
    ensures ContainsAny(s, [a, b]) <==> Contains(s, a) || Contains(s, b)
  {
    assert ContainsAny(s, [b]) <==> Contains(s, b) by {
      assert [b][1..] == [];
    }
    assert [a, b][1..] == [b];
  }

  lemma ContainsAnyOfThree(s: string, a: string, b: string, c: string)
    ensures ContainsAny(s, [a, b, c]) <==> Contains(s, a) || Contains(s, b) || Contains(s, c)
  {
    assert [a, b, c][1..] == [b, c];
    ContainsAnyOfTwo(s, b, c);
  }

  /** Title rule `i` fires: the lower-cased title contains one of its words. */
  predicate TitleRuleFires(w: WorkResource, i: int) {
    0 <= i < |TitleRules| && ContainsAny(ToLower(w.title), TitleRules[i].0)
  }

  predicate FirstTagRule(w: WorkResource, i: int) {
    TagRuleFires(w, i) && forall j :: 0 <= j < i ==> !TagRuleFires(w, j)
  }

  predicate FirstTitleRule(w: WorkResource, i: int) {
    TitleRuleFires(w, i) && forall j :: 0 <= j < i ==> !TitleRuleFires(w, j)
  }

  predicate HasDecisiveTag(w: WorkResource) {
    exists i :: 0 <= i < |TagRules| && TagRuleFires(w, i)
  }

  /** The tag rules, spelled out. */
  lemma TagRulesUnfold(w: WorkResource)
    ensures TagRuleFires(w, 0) <==> "aerial" in LowerTagNames(w.tags)
    ensures TagRuleFires(w, 1) <==> "exterior" in LowerTagNames(w.tags)
    ensures TagRuleFires(w, 2) <==> "interior" in LowerTagNames(w.tags)
    ensures HasDecisiveTag(w) <==> TagRuleFires(w, 0) || TagRuleFires(w, 1) || TagRuleFires(w, 2)
  {
  }

  /** The title rules, spelled out. */
  lemma TitleRulesUnfold(w: WorkResource, title: string)
    requires title == ToLower(w.title)
    ensures TitleRuleFires(w, 0) <==> Contains(title, "aerial") || Contains(title, "bird")
    ensures TitleRuleFires(w, 1) <==> Contains(title, "exterior") || Contains(title, "outside") || Contains(title, "facade")
    ensures TitleRuleFires(w, 2) <==> Contains(title, "interior") || Contains(title, "inside") || Contains(title, "room")
    ensures TitleRuleFires(w, 3) <==> Contains(title, "detail") || Contains(title, "close")
    ensures TitleRuleFires(w, 4) <==> Contains(title, "concept") || Contains(title, "sketch")
  {
    TitleRulesUnfoldFirst(w, title);
    TitleRulesUnfoldLast(w, title);
  }

  lemma TitleRulesUnfoldFirst(w: WorkResource, title: string)
    requires title == ToLower(w.title)
    ensures TitleRuleFires(w, 0) <==> Contains(title, "aerial") || Contains(title, "bird")
    ensures TitleRuleFires(w, 1) <==> Contains(title, "exterior") || Contains(title, "outside") || Contains(title, "facade")
    ensures TitleRuleFires(w, 2) <==> Contains(title, "interior") || Contains(title, "inside") || Contains(title, "room")
  {
    ContainsAnyOfTwo(title, "aerial", "bird");
    ContainsAnyOfThree(title, "exterior", "outside", "facade");
    ContainsAnyOfThree(title, "interior", "inside", "room");
  }

  lemma TitleRulesUnfoldLast(w: WorkResource, title: string)
    requires title == ToLower(w.title)
    ensures TitleRuleFires(w, 3) <==> Contains(title, "detail") || Contains(title, "close")
    ensures TitleRuleFires(w, 4) <==> Contains(title, "concept") || Contains(title, "sketch")
  {
    ContainsAnyOfTwo(title, "detail", "close");
    ContainsAnyOfTwo(title, "concept", "sketch");
  }

  /** The first tag rule that fires decides the type. */
  lemma FirstTagRuleDecides(w: WorkResource, i: int)
    requires FirstTagRule(w, i)
    ensures DetectImageTypeFromWork(w) == TagRules[i].1
  {
    TagRulesUnfold(w);
    assert i == 0 || (i > 0 && !TagRuleFires(w, 0));
    assert i <= 1 || (i > 1 && !TagRuleFires(w, 1));
  }

  /**
   * Without a decisive tag, the first title rule that fires decides the
   * type: title checks are tried in the listed order.
   */
  lemma FirstTitleRuleDecides(w: WorkResource, i: int)
    requires !HasDecisiveTag(w) && FirstTitleRule(w, i)
    ensures DetectImageTypeFromWork(w) == TitleRules[i].1
  {
    TagRulesUnfold(w);
    TitleRulesUnfold(w, ToLower(w.title));
  }

  /** The type is Hero exactly when no rule fires. */
  lemma HeroIffNoRule(w: WorkResource)
    ensures DetectImageTypeFromWork(w) == Hero <==>
              !HasDecisiveTag(w) && forall i :: 0 <= i < |TitleRules| ==> !TitleRuleFires(w, i)
  {
    TagRulesUnfold(w);
    TitleRulesUnfold(w, ToLower(w.title));
  }

  /**
   * A decisive tag (`aerial`, `exterior` or `interior`) settles the type
   * whatever the title says: an `interior` tag beats an "aerial" title.
   */
  lemma TagsOverrideTitle(w: WorkResource, otherTitle: string)
    requires HasDecisiveTag(w)
    ensures DetectImageTypeFromWork(w) == DetectImageTypeFromWork(w.(title := otherTitle))
    ensures DetectImageTypeFromWork(w) in {Aerial, Exterior, Interior}
  {
    TagRulesUnfold(w);
    TagRulesUnfold(w.(title := otherTitle));
  }

  /** Without a decisive tag the tags play no part: only the title is read. */
  lemma TitleDecidesWithoutDecisiveTag(w: WorkResource, otherTags: seq<Tag>)
    requires !HasDecisiveTag(w) && !HasDecisiveTag(w.(tags := otherTags))
    ensures DetectImageTypeFromWork(w) == DetectImageTypeFromWork(w.(tags := otherTags))
  {
    TagRulesUnfold(w);
    TagRulesUnfold(w.(tags := otherTags));
  }

  /** A work tagged "Exterior" and titled "Night Aerial View" is Exterior: the tag wins. */
  lemma TagBeatsTitleExample(w: WorkResource, id: int, ko: string)
    requires w.tags == [Tag(id, TagName("Exterior", ko))] && w.title == "Night Aerial View"
    ensures DetectImageTypeFromWork(w) == Exterior
  {
    LowerExterior();
    assert LowerTagNames(w.tags) == ["exterior"];
  }

  lemma LowerExterior()
    ensures ToLower("Exterior") == "exterior"
  {
    assert ToLower("Exterior")[0] == LowerChar('E');
  }

  /** The comparator of `sortWorksWithinProject`: videos first, then by type priority. */
  function CompareWorks(a: WorkResource, b: WorkResource): int {
    if HasVideo(a) && !HasVideo(b) then -1
    else if !HasVideo(a) && HasVideo(b) then 1
    else Priority(DetectImageTypeFromWork(a)) - Priority(DetectImageTypeFromWork(b))
  }

  /** `a` may stay in front of `b` in a sorted project. */
  predicate WorkPrecedes(a: WorkResource, b: WorkResource) {
    CompareWorks(a, b) <= 0
  }

  /** The composite key the comparator orders by: video status, then type priority. */
  function WorkSortKey(w: WorkResource): int {
    (if HasVideo(w) then 0 else 6) + Priority(DetectImageTypeFromWork(w))
  }

  /** The comparator is consistent: its sign is that of the difference of the keys. */
  lemma CompareWorksOrdersByKey(a: WorkResource, b: WorkResource)
    ensures CompareWorks(a, b) < 0 <==> WorkSortKey(a) < WorkSortKey(b)
    ensures CompareWorks(a, b) == 0 <==> WorkSortKey(a) == WorkSortKey(b)
    ensures CompareWorks(a, b) == -CompareWorks(b, a)
  {
  }

  lemma WorkPrecedesIsTotalPreorder()
    ensures StableSort.TotalPreorder(WorkPrecedes)
  {
    forall a, b ensures WorkPrecedes(a, b) <==> WorkSortKey(a) <= WorkSortKey(b) {
      CompareWorksOrdersByKey(a, b);
    }
  }

  /**
   * In a list sorted with this comparator no work without a video precedes
   * one with a video, and works of equal video status are in non-decreasing
   * type priority.
   */
  lemma SortedWorksOrder(ws: seq<WorkResource>, i: int, j: int)
    requires StableSort.SortedBy(ws, WorkPrecedes)
    requires 0 <= i < j < |ws|
    ensures HasVideo(ws[j]) ==> HasVideo(ws[i])
    ensures HasVideo(ws[i]) == HasVideo(ws[j]) ==>
              Priority(DetectImageTypeFromWork(ws[i])) <= Priority(DetectImageTypeFromWork(ws[j]))
  {
    assert WorkPrecedes(ws[i], ws[j]);
  }
}
