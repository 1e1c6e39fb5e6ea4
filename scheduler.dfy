/**
 * The scheduler's course list page as both monitors read it: the rows of the
 * allocation table, which row belongs to a course, and the invalid-page redirect.
 * A row is reduced to the inner text of its course cell and the URL the browser
 * lands on after its sections button is clicked.
 */
module Scheduler {
  import opened Wrappers
  import opened Text
  import opened Decision

  datatype Row = Row(text: string, landingUrl: string)

  /**
   * One load of the course list in a tab.  `Unavailable` is a load that raised
   * (a wait timed out); `termSelected` records whether the term had already been
   * chosen when that happened, which only matters for the first tab.
   */
  datatype Listing = Unavailable(termSelected: bool) | Loaded(rows: seq<Row>, handle: string)

  /** Where a course sits in the table; `Unreadable` is the exception the backend's regex match raises. */
  datatype Located = At(index: nat) | NotListed | Unreadable

  /**
   * The course a row names: the backend takes the `\w+ \d+` match at the start
   * of the cell (and fails without one), the legacy monitor the first line.
   */
  function RowCourse(v: Version, text: string): (r: Option<string>)
    ensures v == Legacy ==> r.Some? && '\n' !in r.value && |r.value| <= |text| && text[..|r.value|] == r.value
    ensures v == Legacy ==> |r.value| == |text| || text[|r.value|] == '\n'
    ensures v == Backend && r.Some? ==>
      IsCourseLabel(r.value) && |r.value| <= |text| && text[..|r.value|] == r.value &&
      (|r.value| == |text| || !IsDigit(text[|r.value|]))
    ensures v == Backend && r.None? ==> forall n :: 0 < n <= |text| ==> !IsCourseLabel(text[..n])
  {
    match v
    case Backend => ParseCourseLabel(text)
    case Legacy => Some(FirstSegment(text, '\n'))
  }

  /** A row that was read and names some other course. */
  predicate NamesOther(v: Version, row: Row, course: string)
  {
    RowCourse(v, row.text).Some? && RowCourse(v, row.text).value != course
  }

  /** Rows before `n` that were read and name another course. */
  predicate SkippedBefore(v: Version, rows: seq<Row>, course: string, n: nat)
    requires n <= |rows|
  {
    forall k :: 0 <= k < n ==> NamesOther(v, rows[k], course)
  }

  /** The scan of `course_elements`: the first row naming `course`, stopping at the first unreadable row. */
  function Locate(v: Version, rows: seq<Row>, course: string): Located
  {
    if rows == [] then NotListed
    else match RowCourse(v, rows[0].text)
      case None => Unreadable
      case Some(c) => if c == course then At(0) else Shift(Locate(v, rows[1..], course), 1)
  }

  /** The scan finds the first row naming the course, every earlier row having been read. */
  lemma {:induction false} LocateFound(v: Version, rows: seq<Row>, course: string)
    requires Locate(v, rows, course).At?
    ensures var i := Locate(v, rows, course).index;
      i < |rows| && SkippedBefore(v, rows, course, i) && RowCourse(v, rows[i].text) == Some(course)
  {
    if NamesOther(v, rows[0], course) {
      LocateFound(v, rows[1..], course);
      var i := Locate(v, rows[1..], course).index;
      assert forall k :: 1 <= k <= i ==> rows[k] == rows[1..][k - 1];
    }
  }

  /** The course is reported missing exactly when every row was read and names another course. */
  lemma {:induction false} LocateNotListed(v: Version, rows: seq<Row>, course: string)
    ensures Locate(v, rows, course).NotListed? <==> SkippedBefore(v, rows, course, |rows|)
  {
    if rows != [] {
      LocateNotListed(v, rows[1..], course);
      assert forall k :: 1 <= k < |rows| ==> rows[k] == rows[1..][k - 1];
    }
  }

  /** Otherwise the scan stopped at an unreadable row, every earlier row having been read. */
  lemma {:induction false} LocateUnreadable(v: Version, rows: seq<Row>, course: string)
    requires Locate(v, rows, course).Unreadable?
    ensures exists i :: 0 <= i < |rows| && SkippedBefore(v, rows, course, i) && RowCourse(v, rows[i].text).None?
  {
    if RowCourse(v, rows[0].text).None? {
      assert SkippedBefore(v, rows, course, 0);
    } else {
      LocateUnreadable(v, rows[1..], course);
      var i :| 0 <= i < |rows[1..]| && SkippedBefore(v, rows[1..], course, i) && RowCourse(v, rows[1..][i].text).None?;
      assert forall k :: 1 <= k <= i ==> rows[k] == rows[1..][k - 1];
      assert SkippedBefore(v, rows, course, i + 1);
    }
  }

  function Shift(r: Located, n: nat): Located
  {
    if r.At? then At(r.index + n) else r
  }

  /** One step of the scan, taken at row `i`. */
  lemma LocateFrom(v: Version, rows: seq<Row>, course: string, i: nat)
    requires i < |rows|
    ensures Locate(v, rows[i..], course) ==
      match RowCourse(v, rows[i].text)
      case None => Unreadable
      case Some(c) => if c == course then At(0) else Shift(Locate(v, rows[i + 1..], course), 1)
  {
    assert rows[i..][0] == rows[i] && rows[i..][1..] == rows[i + 1..];
  }

  /** The loop over the rows, proved to find what `Locate` describes. */
  method FindCourseRow(v: Version, rows: seq<Row>, course: string) returns (r: Located)
    ensures r == Locate(v, rows, course)
  {
    var i := 0;
    while i < |rows|
      invariant 0 <= i <= |rows|
      invariant Locate(v, rows, course) == Shift(Locate(v, rows[i..], course), i)
    {
      var c := RowCourse(v, rows[i].text);
      LocateFrom(v, rows, course, i);
      if c.None? {
        return Unreadable;
      }
      if c.value == course {
        return At(i);
      }
      i := i + 1;
    }
    return NotListed;
  }

  // ---- `redirect_if_invalid` ----

  /** `INVALID_PAGE_STRING`: what the scheduler's error page adds to a tab's URL. */
  const InvalidPageMarker: string := "invalid.aspx?aspxerrorpath=/"

  /** The URL the tab is sent to, or None when the current URL is not an error page. */
  function RedirectTarget(currentUrl: string): (r: Option<string>)
  {
    if Contains(currentUrl, InvalidPageMarker) then Some(RemoveAll(currentUrl, InvalidPageMarker)) else None
  }

  /** A redirect happens exactly on error pages, and the marker is stripped from the URL. */
  lemma RedirectOnlyOnErrorPages(currentUrl: string)
    ensures RedirectTarget(currentUrl).Some? <==> Contains(currentUrl, InvalidPageMarker)
    ensures RedirectTarget(currentUrl).Some? ==>
      RedirectTarget(currentUrl).value != currentUrl &&
      |RedirectTarget(currentUrl).value| <= |currentUrl| - |InvalidPageMarker|
  {
    RemoveAllChangesIffContains(currentUrl, InvalidPageMarker);
  }
}
