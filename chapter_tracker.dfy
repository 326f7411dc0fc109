/** A chapter card: lecture and DPP buttons whose clicks set the completed
    counts, and a question-tracking grid of books by difficulty level. */
module Chapters {
  import opened Common
  import Navigation

  /** A row of `chapters` with the completed counts the card reads; an absent
      count is None. */
  datatype Chapter = Chapter(
    id: string,
    subjectId: string,
    chapterNo: string,
    name: string,
    totalLectures: nat,
    totalDpps: nat,
    lecturesCompleted: Option<int>,
    dppsCompleted: Option<int>)

  const GlobalLevels: seq<string> :=
    ["School Level", "JEE Mains Level", "JEE Advanced Level", "JEE Advanced Plus Level"]

  const BookConfig: map<string, seq<string>> := map[
    "Physics" := ["Module", "HC Verma", "IE Irodov", "SS Krotov", "Physics Galaxy", "PYQs"],
    "Math" := ["Module", "Cengage", "PYQs"],
    "Physical Chemistry" := ["Module", "Narendra Avasthi", "PYQs"],
    "Inorganic Chemistry" := ["Module", "PYQs"],
    "Organic Chemistry" := ["Module", "PYQs"]
  ]

  /** Every configured book list is non-empty and starts with "Module". */
  lemma ConfiguredListsStartWithModule()
    ensures forall s :: s in BookConfig ==> |BookConfig[s]| > 0 && BookConfig[s][0] == "Module"
  {
  }

  /** The subjects the sidebar links to are exactly the configured ones, so
      the default list is used only for names outside the sidebar. */
  lemma SidebarSubjectsConfigured()
    ensures BookConfig.Keys == set k | 0 <= k < |Navigation.SubjectLinks| :: Navigation.SubjectLinks[k].name
  {
    var names := set k | 0 <= k < |Navigation.SubjectLinks| :: Navigation.SubjectLinks[k].name;
    assert Navigation.SubjectLinks[0].name in names;
    assert Navigation.SubjectLinks[1].name in names;
    assert Navigation.SubjectLinks[2].name in names;
    assert Navigation.SubjectLinks[3].name in names;
    assert Navigation.SubjectLinks[4].name in names;
  }

  /** `BOOK_CONFIG[subject] || ["Module"]`. */
  function BooksFor(subject: string): (r: seq<string>)
    ensures subject in BookConfig ==> r == BookConfig[subject]
    ensures subject !in BookConfig ==> r == ["Module"]
    ensures |r| > 0 && r[0] == "Module"
  {
    ConfiguredListsStartWithModule();
    if subject in BookConfig then BookConfig[subject] else ["Module"]
  }

  /** The rows of the question grid: for each book, one row per level. */
  function QuestionRows(books: seq<string>): (r: seq<(string, string)>)
    ensures |r| == |GlobalLevels| * |books|
  {
    if books == [] then []
    else
      var b := books[|books| - 1];
      QuestionRows(books[..|books| - 1]) + [(b, GlobalLevels[0]), (b, GlobalLevels[1]), (b, GlobalLevels[2]), (b, GlobalLevels[3])]
  }

  /** Every book shows exactly the four levels, in order: row `k` is book
      `k / 4` at level `k % 4`. */
  lemma {:induction false} QuestionRowsLayout(books: seq<string>)
    ensures forall k :: 0 <= k < |QuestionRows(books)| ==>
      QuestionRows(books)[k] == (books[k / 4], GlobalLevels[k % 4])
  {
    if books != [] {
      var n := |books|;
      var front := books[..n - 1];
      QuestionRowsLayout(front);
      var r := QuestionRows(books);
      forall k | 0 <= k < |r|
        ensures r[k] == (books[k / 4], GlobalLevels[k % 4])
      {
        if k < 4 * (n - 1) {
          assert r[k] == QuestionRows(front)[k];
          assert k / 4 < n - 1;
          assert front[k / 4] == books[k / 4];
        } else {
          assert k / 4 == n - 1;
          assert k % 4 == k - 4 * (n - 1);
        }
      }
    }
  }

  /** The done flags of `total` buttons when `count` are completed. */
  function Marks(count: int, total: nat): (r: seq<bool>)
    ensures |r| == total
    ensures forall i :: 0 <= i < total ==> (r[i] <==> i < count)
  {
    seq(total, i => i < count)
  }

  /** The number of buttons shown as done is the count clamped to the range
      0 .. total. */
  lemma {:induction false} DoneCount(count: int, total: nat)
    ensures Count(Marks(count, total), b => b) == if count < 0 then 0 else if count > total then total else count
  {
    if total > 0 {
      var m := Marks(count, total);
      var front := Marks(count, total - 1);
      assert m[..total - 1] == front;
      DoneCount(count, total - 1);
    }
  }

  /** The card's state. */
  class ChapterTracker {
    const totalLectures: nat
    const totalDpps: nat
    const books: seq<string>
    var expanded: bool
    var lecturesCompleted: int
    var dppsCompleted: int

    /** Counts start from the chapter's, 0 when absent; the card starts
        collapsed. */
    constructor (chapter: Chapter, subject: string)
      ensures totalLectures == chapter.totalLectures && totalDpps == chapter.totalDpps
      ensures lecturesCompleted == OrZero(chapter.lecturesCompleted)
      ensures dppsCompleted == OrZero(chapter.dppsCompleted)
      ensures books == BooksFor(subject)
      ensures !expanded
    {
      totalLectures := chapter.totalLectures;
      totalDpps := chapter.totalDpps;
      books := BooksFor(subject);
      expanded := false;
      lecturesCompleted := OrZero(chapter.lecturesCompleted);
      dppsCompleted := OrZero(chapter.dppsCompleted);
    }

    /** The header click. */
    method ToggleExpanded()
      modifies this
      ensures expanded == !old(expanded)
      ensures lecturesCompleted == old(lecturesCompleted) && dppsCompleted == old(dppsCompleted)
    {
      expanded := !expanded;
    }

    /** Clicking lecture button `i`: the count becomes `i + 1`, up or down. */
    method ClickLecture(i: nat)
      requires i < totalLectures
      modifies this
      ensures lecturesCompleted == i + 1 && lecturesCompleted <= totalLectures
      ensures forall j :: 0 <= j < totalLectures ==> (LectureMarks()[j] <==> j <= i)
      ensures dppsCompleted == old(dppsCompleted) && expanded == old(expanded)
    {
      lecturesCompleted := i + 1;
    }

    /** Clicking DPP button `i`: the count becomes `i + 1`, up or down. */
    method ClickDpp(i: nat)
      requires i < totalDpps
      modifies this
      ensures dppsCompleted == i + 1 && dppsCompleted <= totalDpps
      ensures forall j :: 0 <= j < totalDpps ==> (DppMarks()[j] <==> j <= i)
      ensures lecturesCompleted == old(lecturesCompleted) && expanded == old(expanded)
    {
      dppsCompleted := i + 1;
    }

    /** The lecture buttons' done flags; `DoneCount` gives how many are set. */
    function LectureMarks(): (r: seq<bool>)
      reads this
      ensures r == Marks(lecturesCompleted, totalLectures)
      ensures |r| == totalLectures
      ensures forall i :: 0 <= i < totalLectures ==> (r[i] <==> i < lecturesCompleted)
    {
      Marks(lecturesCompleted, totalLectures)
    }

    /** The DPP buttons' done flags; `DoneCount` gives how many are set. */
    function DppMarks(): (r: seq<bool>)
      reads this
      ensures r == Marks(dppsCompleted, totalDpps)
      ensures |r| == totalDpps
      ensures forall i :: 0 <= i < totalDpps ==> (r[i] <==> i < dppsCompleted)
    {
      Marks(dppsCompleted, totalDpps)
    }
  }
}
