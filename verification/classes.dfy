/** `GET /classes`: search, newest-first order, pagination and the related
    trainers attached to each class. The two regular-expression tests
    (class name against the search text, trainer skills against the class
    name) are parameters of the model. */
module Classes {
  import opened Wrappers
  import opened Http
  import opened Seqs
  import opened Store
  import opened Paging

  /** The `relatedTrainers` projection `{ fullName, profileImage, _id }`. */
  datatype TrainerCard = TrainerCard(fullName: string, profileImage: string, id: Id)

  /** A class with its related trainers attached. */
  datatype ClassView = ClassView(cls: Class, relatedTrainers: seq<TrainerCard>)

  /** The `.limit(5)` on related trainers. */
  const RelatedLimit: nat := 5

  function Card(t: AcceptedTrainer): TrainerCard
  {
    TrainerCard(t.record.profile.fullName, t.record.profile.profileImage, t.record.id)
  }

  /** Filter `{ skills: { $regex: new RegExp(className, 'i') } }`. */
  function Teaches(className: string, skillMatches: (seq<string>, string) -> bool): AcceptedTrainer -> bool
  {
    (t: AcceptedTrainer) => skillMatches(t.record.profile.skills, className)
  }

  /** Filter `{ name: { $regex: new RegExp(search, 'i') } }`. */
  function NameLike(search: string, nameMatches: (string, string) -> bool): Class -> bool
  {
    (c: Class) => nameMatches(c.name, search)
  }

  /** The classes the search selects: all of them when `search` is empty. */
  function Matching(classes: seq<Class>, search: string, nameMatches: (string, string) -> bool): seq<Class>
  {
    if search == "" then classes else Filter(classes, NameLike(search, nameMatches))
  }

  /** Up to five accepted trainers whose skills match the class name, in
      collection order, projected to cards. */
  function RelatedTrainers(accepted: seq<AcceptedTrainer>, className: string,
                           skillMatches: (seq<string>, string) -> bool): (r: seq<TrainerCard>)
    ensures |r| == Min(RelatedLimit, Count(accepted, Teaches(className, skillMatches)))
    ensures forall k :: 0 <= k < |r| ==>
              exists j :: 0 <= j < |accepted| && Teaches(className, skillMatches)(accepted[j])
                          && Card(accepted[j]) == r[k]
                          && Count(accepted[..j], Teaches(className, skillMatches)) == k
  {
    var teachers := Filter(accepted, Teaches(className, skillMatches));
    var shown := Take(teachers, RelatedLimit);
    assert forall k :: 0 <= k < |shown| ==> shown[k] == teachers[k];
    forall k | 0 <= k < |shown|
      ensures exists j :: 0 <= j < |accepted| && Teaches(className, skillMatches)(accepted[j])
                          && Card(accepted[j]) == Card(shown[k])
                          && Count(accepted[..j], Teaches(className, skillMatches)) == k
    {
      FilterRank(accepted, Teaches(className, skillMatches), k);
    }
    Map(shown, Card)
  }

  /** `GET /classes?page=&search=`. No reply for a negative page; otherwise
      200 with the page's classes, newest first, each with its related
      trainers, and `totalPages` counted over the classes the search selects. */
  function ListClasses(s: Store, parsed: Option<int>, search: string,
                       nameMatches: (string, string) -> bool,
                       skillMatches: (seq<string>, string) -> bool): (r: Response<PageView<ClassView>>)
    ensures r.Unhandled? <==> PageNumber(parsed) < 1
    ensures r.Reply? || r.Unhandled?
    ensures r.Reply? ==>
              var selected := Matching(s.classes, search, nameMatches);
              var skip := (PageNumber(parsed) - 1) * PageSize;
              && r.code == OK
              && r.body.currentPage == PageNumber(parsed)
              && r.body.totalPages == TotalPages(|selected|)
              && |r.body.items| <= PageSize
              && (skip < |selected| ==> |r.body.items| == Min(PageSize, |selected| - skip))
              && forall k :: 0 <= k < |r.body.items| ==>
                   && skip + k < |selected|
                   && r.body.items[k].cls == NewestFirst(selected, CreatedAt)[skip + k]
                   && (search != "" ==> nameMatches(r.body.items[k].cls.name, search))
                   && r.body.items[k].relatedTrainers
                        == RelatedTrainers(s.accepted, r.body.items[k].cls.name, skillMatches)
  {
    var selected := Matching(s.classes, search, nameMatches);
    var ordered := NewestFirst(selected, CreatedAt);
    assert search != "" ==> forall k :: 0 <= k < |ordered| ==> NameLike(search, nameMatches)(ordered[k]) by {
      if search != "" {
        NewestFirstKeeps(selected, CreatedAt, NameLike(search, nameMatches));
      }
    }
    match Paginate(ordered, parsed)
    case None => Unhandled
    case Some(view) =>
      var enrich := (c: Class) => ClassView(c, RelatedTrainers(s.accepted, c.name, skillMatches));
      Reply(OK, PageView(Map(view.items, enrich), view.totalPages, view.currentPage))
  }

  function CreatedAt(c: Class): int
  {
    c.createdAt
  }

  /** When classes were inserted with a clock that does not run backwards,
      the listing is the search's selection in reverse insertion order. */
  lemma ClassesInReverse(s: Store, parsed: Option<int>, search: string,
                         nameMatches: (string, string) -> bool,
                         skillMatches: (seq<string>, string) -> bool)
    requires Ascending(s.classes, CreatedAt)
    ensures var r := ListClasses(s, parsed, search, nameMatches, skillMatches);
      var selected := Matching(s.classes, search, nameMatches);
      var skip := (PageNumber(parsed) - 1) * PageSize;
      r.Reply? ==> forall k :: 0 <= k < |r.body.items| ==>
        skip + k < |selected| && r.body.items[k].cls == selected[|selected| - 1 - (skip + k)]
  {
    var r := ListClasses(s, parsed, search, nameMatches, skillMatches);
    if r.Reply? {
      var selected := Matching(s.classes, search, nameMatches);
      var skip := (PageNumber(parsed) - 1) * PageSize;
      PageIsWindow(s, parsed, search, nameMatches, skillMatches);
      SelectionReversed(s.classes, search, nameMatches);
      assert IsRun(r.body.items, Reverse(selected), skip);
      WindowOfReverse(selected, r.body.items, skip);
    }
  }

  /** A chronological collection's selection, sorted newest first, is the
      selection reversed. */
  lemma SelectionReversed(classes: seq<Class>, search: string, nameMatches: (string, string) -> bool)
    requires Ascending(classes, CreatedAt)
    ensures NewestFirst(Matching(classes, search, nameMatches), CreatedAt) == Reverse(Matching(classes, search, nameMatches))
  {
    if search != "" {
      FilterKeepsOrder(classes, NameLike(search, nameMatches), CreatedAt);
    }
    NewestFirstOfChronological(Matching(classes, search, nameMatches), CreatedAt);
  }

  /** A run of the reversed selection, read back in selection positions. */
  lemma WindowOfReverse(selected: seq<Class>, items: seq<ClassView>, skip: int)
    requires skip >= 0
    requires IsRun(items, Reverse(selected), skip)
    ensures forall k :: 0 <= k < |items| ==>
              skip + k < |selected| && items[k].cls == selected[|selected| - 1 - (skip + k)]
  {
  }

  /** Every page lists its classes newest first, as `.sort({ createdAt: -1 })` does. */
  lemma ClassesNewestFirst(s: Store, parsed: Option<int>, search: string,
                           nameMatches: (string, string) -> bool,
                           skillMatches: (seq<string>, string) -> bool)
    ensures var r := ListClasses(s, parsed, search, nameMatches, skillMatches);
      r.Reply? ==> NewestFirstPage(r.body.items)
  {
    var ordered := NewestFirst(Matching(s.classes, search, nameMatches), CreatedAt);
    PageIsWindow(s, parsed, search, nameMatches, skillMatches);
    var r := ListClasses(s, parsed, search, nameMatches, skillMatches);
    if r.Reply? {
      RunOfDescending(ordered, r.body.items, (PageNumber(parsed) - 1) * PageSize);
    }
  }

  /** A contiguous run of a newest-first listing is newest first. */
  lemma RunOfDescending(ordered: seq<Class>, items: seq<ClassView>, skip: int)
    requires Descending(ordered, CreatedAt)
    requires skip >= 0
    requires IsRun(items, ordered, skip)
    ensures NewestFirstPage(items)
  {
    forall i, j | 0 <= i < j < |items|
      ensures items[i].cls.createdAt >= items[j].cls.createdAt
    {
      assert items[i].cls == ordered[skip + i] && items[j].cls == ordered[skip + j];
      assert CreatedAt(ordered[skip + i]) >= CreatedAt(ordered[skip + j]);
    }
  }

  /** The classes of a page are a contiguous run of the newest-first listing. */
  lemma PageIsWindow(s: Store, parsed: Option<int>, search: string,
                     nameMatches: (string, string) -> bool,
                     skillMatches: (seq<string>, string) -> bool)
    ensures var r := ListClasses(s, parsed, search, nameMatches, skillMatches);
      var ordered := NewestFirst(Matching(s.classes, search, nameMatches), CreatedAt);
      var skip := (PageNumber(parsed) - 1) * PageSize;
      r.Reply? ==> IsRun(r.body.items, ordered, skip)
  {
    var r := ListClasses(s, parsed, search, nameMatches, skillMatches);
    if r.Reply? && r.body.items != [] {
      var last := |r.body.items| - 1;
      assert r.body.items[last].cls == NewestFirst(Matching(s.classes, search, nameMatches), CreatedAt)[(PageNumber(parsed) - 1) * PageSize + last];
    }
  }

  /** `items` shows the classes of `xs` from position `skip` on. */
  predicate IsRun(items: seq<ClassView>, xs: seq<Class>, skip: int)
  {
    && 0 <= skip
    && (items != [] ==> skip + |items| <= |xs|)
    && forall k :: 0 <= k < |items| ==> items[k].cls == xs[skip + k]
  }

  /** The shown classes are newest first. */
  predicate NewestFirstPage(items: seq<ClassView>)
  {
    forall i, j :: 0 <= i < j < |items| ==> items[i].cls.createdAt >= items[j].cls.createdAt
  }
}
