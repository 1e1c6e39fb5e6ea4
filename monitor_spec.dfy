/**
 * What the backend monitor's tab handling and section checks do, as functions of
 * its state; the `HowdySeek` class in module Monitor is proved against these.
 */
module MonitorSpec {
  import opened Wrappers
  import opened Text
  import opened Extraction
  import opened Decision
  import opened Scheduler

  /**
   * The bookkeeping tab creation updates: `course_names` (URL id to course),
   * `tab_links` (window handle to URL), `monitored_courses`, and the module flag
   * `FIRST_TAB_CREATED`.
   */
  datatype Tabs = Tabs(courseNames: map<string, string>, tabLinks: map<string, string>,
                       monitored: set<string>, firstTabCreated: bool)

  /** Every named URL belongs to a monitored course, and no course is monitored before the first tab. */
  predicate Coherent(t: Tabs)
  {
    (t.monitored != {} ==> t.firstTabCreated) &&
    forall id :: id in t.courseNames ==> t.courseNames[id] in t.monitored
  }

  /** The row was clicked: the tab at `handle` now shows the course's sections. */
  function Designate(t: Tabs, course: string, row: Row, handle: string): (r: Tabs)
    ensures r.monitored == t.monitored + {course}
    ensures UrlId(row.landingUrl) in r.courseNames && r.courseNames[UrlId(row.landingUrl)] == course
    ensures handle in r.tabLinks && r.tabLinks[handle] == row.landingUrl
    ensures forall h :: h in t.tabLinks ==> h in r.tabLinks
    ensures Coherent(t) && t.firstTabCreated ==> Coherent(r)
  {
    Tabs(t.courseNames[UrlId(row.landingUrl) := course], t.tabLinks[handle := row.landingUrl],
         t.monitored + {course}, t.firstTabCreated)
  }

  /** The listing lets `course` be placed: it loaded and its rows name the course before any unreadable row. */
  predicate Placeable(listing: Listing, course: string)
  {
    listing.Loaded? && Locate(Backend, listing.rows, course).At?
  }

  /** `create_tab_for_course`: the new bookkeeping and the boolean it returns. */
  function AttemptTab(t: Tabs, course: string, listing: Listing): (Tabs, bool)
  {
    if course in t.monitored then (t, true)
    else
      var t1 := if listing.Loaded? || listing.termSelected then t.(firstTabCreated := true) else t;
      match listing
      case Unavailable(_) => (t1, false)
      case Loaded(rows, handle) =>
        match Locate(Backend, rows, course)
        case At(i) => LocateFound(Backend, rows, course); (Designate(t1, course, rows[i], handle), true)
        case _ => (t1, false)
  }

  /**
   * A monitored course is left alone (no second tab); otherwise the course is
   * monitored afterwards exactly when its listing placed it, and the answer says so.
   */
  lemma AttemptTabEffect(t: Tabs, course: string, listing: Listing)
    ensures var (r, ok) := AttemptTab(t, course, listing);
      (course in t.monitored ==> r == t && ok) &&
      (course !in t.monitored ==> (ok <==> Placeable(listing, course))) &&
      (ok <==> course in r.monitored) &&
      r.monitored == (if ok then t.monitored + {course} else t.monitored) &&
      (t.firstTabCreated ==> r.firstTabCreated) &&
      (Coherent(t) ==> Coherent(r))
  {
  }

  /** A placed course's tab is recorded under the URL its row leads to. */
  lemma AttemptTabRecordsLanding(t: Tabs, course: string, rows: seq<Row>, handle: string)
    requires course !in t.monitored && Locate(Backend, rows, course).At?
    ensures var i := Locate(Backend, rows, course).index;
      var r := AttemptTab(t, course, Loaded(rows, handle)).0;
      i < |rows| && RowCourse(Backend, rows[i].text) == Some(course) &&
      r.courseNames[UrlId(rows[i].landingUrl)] == course && r.tabLinks[handle] == rows[i].landingUrl
  {
    LocateFound(Backend, rows, course);
  }

  /** The `for course_name in courses` loop: one attempt per course, in order. */
  function AttemptAll(t: Tabs, courses: seq<string>, load: string -> Listing): Tabs
  {
    if courses == [] then t
    else
      var last := courses[|courses| - 1];
      var before := AttemptAll(t, courses[..|courses| - 1], load);
      AttemptTab(before, last, load(last)).0
  }

  /**
   * After the loop every course is monitored unless its own listing could not
   * place it, nothing outside the loop became monitored, and coherence holds.
   */
  lemma {:induction false} AttemptAllCovers(t: Tabs, courses: seq<string>, load: string -> Listing)
    ensures var r := AttemptAll(t, courses, load);
      (forall c :: c in courses ==> c in r.monitored || !Placeable(load(c), c)) &&
      t.monitored <= r.monitored &&
      (forall c :: c in r.monitored ==> c in t.monitored || c in courses) &&
      (t.firstTabCreated ==> r.firstTabCreated) &&
      (Coherent(t) ==> Coherent(r))
  {
    if courses != [] {
      var init := courses[..|courses| - 1];
      var last := courses[|courses| - 1];
      AttemptAllCovers(t, init, load);
      AttemptTabEffect(AttemptAll(t, init, load), last, load(last));
      assert forall c :: c in courses ==> c in init || c == last;
    }
  }

  /** The members of `order` that are in `s`, in order. */
  function Filter(order: seq<string>, s: set<string>): seq<string>
  {
    if order == [] then []
    else Filter(order[..|order| - 1], s) + (if order[|order| - 1] in s then [order[|order| - 1]] else [])
  }

  lemma {:induction false} FilterMembers(order: seq<string>, s: set<string>)
    ensures forall c :: c in Filter(order, s) <==> c in order && c in s
  {
    if order != [] {
      FilterMembers(order[..|order| - 1], s);
      assert forall c :: c in order <==> c in order[..|order| - 1] || c == order[|order| - 1];
    }
  }

  /** An enumeration is empty exactly when the set is. */
  lemma EnumerationEmpty(order: seq<string>, s: set<string>)
    requires IsEnumeration(order, s)
    ensures order == [] <==> s == {}
  {
    if order != [] {
      assert order[0] in s;
    }
  }

  /** `order` lists the members of `s`, each once (a set's iteration order). */
  ghost predicate IsEnumeration(order: seq<string>, s: set<string>)
  {
    (forall i, j :: 0 <= i < j < |order| ==> order[i] != order[j]) && (forall c :: c in order <==> c in s)
  }

  /** The outcome of setting up the first tab for `first`: whether it raised, and whether the course was placed. */
  datatype FirstTab = FirstTab(tabs: Tabs, crashed: bool, placed: bool)

  /** The first-tab branch of `create_tabs`: select the term in place and look for `first`. */
  function FirstTabResult(t: Tabs, first: string, listing: Listing): FirstTab
  {
    match listing
    case Unavailable(termSelected) => FirstTab(t.(firstTabCreated := t.firstTabCreated || termSelected), true, false)
    case Loaded(rows, handle) =>
      var t1 := t.(firstTabCreated := true);
      match Locate(Backend, rows, first)
      case Unreadable => FirstTab(t1, true, false)
      case NotListed => FirstTab(t1, false, false)
      case At(i) => LocateFound(Backend, rows, first); FirstTab(Designate(t1, first, rows[i], handle), false, true)
  }

  /** Placed exactly when the listing places `first`; the monitored set grows by `first` then, and not otherwise. */
  lemma FirstTabEffect(t: Tabs, first: string, listing: Listing)
    requires Coherent(t)
    ensures var f := FirstTabResult(t, first, listing);
      Coherent(f.tabs) &&
      (f.placed <==> Placeable(listing, first)) &&
      f.tabs.monitored == (if f.placed then t.monitored + {first} else t.monitored) &&
      (f.crashed ==> !f.placed) &&
      (!f.crashed ==> f.tabs.firstTabCreated)
  {
  }

  /** `create_tabs` over the active courses, enumerated in `order`; the flag says it raised. */
  function CreateTabsResult(t: Tabs, order: seq<string>, load: string -> Listing): (Tabs, bool)
  {
    if order == [] then (t, false)
    else if t.firstTabCreated then (AttemptAll(t, order, load), false)
    else
      var f := FirstTabResult(t, order[0], load(order[0]));
      if f.crashed then (f.tabs, true)
      else (AttemptAll(f.tabs, if f.placed then order[1..] else order, load), false)
  }

  /**
   * Unless `create_tabs` raised, every active course ends up monitored or its
   * listing could not place it; a raise leaves the monitored set as it was.
   * Coherence is kept either way.
   */
  lemma CreateTabsCovers(t: Tabs, order: seq<string>, load: string -> Listing)
    requires Coherent(t)
    ensures var (r, crashed) := CreateTabsResult(t, order, load);
      Coherent(r) &&
      (!crashed ==> forall c :: c in order ==> c in r.monitored || !Placeable(load(c), c)) &&
      (crashed ==> r.monitored == t.monitored) &&
      t.monitored <= r.monitored &&
      (forall c :: c in r.monitored ==> c in t.monitored || c in order)
  {
    if order != [] {
      if t.firstTabCreated {
        AttemptAllCovers(t, order, load);
      } else {
        var f := FirstTabResult(t, order[0], load(order[0]));
        FirstTabEffect(t, order[0], load(order[0]));
        if !f.crashed {
          var rest := if f.placed then order[1..] else order;
          AttemptAllCovers(f.tabs, rest, load);
          assert forall c :: c in order ==> c == order[0] || c in rest;
        }
      }
    }
  }

  /** `check_for_new_courses` after the reload: `create_tabs` while no tab exists, else one attempt per new course. */
  function NewTabsResult(t: Tabs, toAdd: set<string>, order: seq<string>, load: string -> Listing): (Tabs, bool)
  {
    if toAdd != {} && !t.firstTabCreated then CreateTabsResult(t, order, load)
    else (AttemptAll(t, Filter(order, toAdd), load), false)
  }

  /**
   * Unless it raised, every active course is monitored afterwards or its listing
   * could not place it.  The monitored set only grows, and only by active courses
   * that were not monitored before; a raise leaves it as it was.
   */
  lemma NewTabsCover(t: Tabs, active: set<string>, order: seq<string>, load: string -> Listing)
    requires Coherent(t) && IsEnumeration(order, active)
    ensures var (r, crashed) := NewTabsResult(t, active - t.monitored, order, load);
      Coherent(r) && (!crashed ==> forall c :: c in active ==> c in r.monitored || !Placeable(load(c), c)) &&
      t.monitored <= r.monitored &&
      (forall c :: c in r.monitored ==> c in t.monitored || c in active - t.monitored) &&
      (crashed ==> r.monitored == t.monitored)
  {
    var toAdd := active - t.monitored;
    if toAdd != {} && !t.firstTabCreated {
      CreateTabsCovers(t, order, load);
    } else {
      AttemptAllCovers(t, Filter(order, toAdd), load);
      FilterMembers(order, toAdd);
    }
  }

  // ---- `check_sections` ----

  /** The course of the tab at `link`, through its URL id; an empty name counts as unknown. */
  function CourseOf(courseNames: map<string, string>, link: string): Option<string>
  {
    var id := UrlId(link);
    if id in courseNames && courseNames[id] != "" then Some(courseNames[id]) else None
  }

  function InitialStates(states: map<string, States>, course: string): States
  {
    if course in states then states[course] else map[]
  }

  datatype Checked = Checked(states: map<string, States>, events: seq<Event>)

  /**
   * `check_sections(current_link)`: the course's state is created when missing;
   * when the wait showed sections and every seat count parsed, the pass over the
   * live subscribers of that course runs.
   */
  function CheckResult(courseNames: map<string, string>, states: map<string, States>, data: seq<Subscriber>,
                       stopTimes: map<string, int>, link: string, polls: seq<Poll>, cells: seq<string>, now: int): Checked
  {
    match CourseOf(courseNames, link)
    case None => Checked(states, [])
    case Some(c) =>
      var out := CheckCourse(InitialStates(states, c), data, stopTimes, c, polls, cells, now);
      Checked(states[c := out.states], out.events)
  }

  /** The part of `check_sections` after the course is known. */
  function CheckCourse(st: States, data: seq<Subscriber>, stopTimes: map<string, int>, course: string,
                       polls: seq<Poll>, cells: seq<string>, now: int): Outcome
  {
    if WaitOutcome(polls) == SectionsShown && StrideSections(cells).Some? then
      Pass(Backend, st, Jobs(data, stopTimes, now, Some(course)), StrideSections(cells).value)
    else Outcome(st, [])
  }

  /**
   * A tab whose URL names no known course changes nothing; otherwise only that
   * course's state is touched (and created when missing).
   */
  lemma CheckResultFrame(courseNames: map<string, string>, states: map<string, States>, data: seq<Subscriber>,
                         stopTimes: map<string, int>, link: string, polls: seq<Poll>, cells: seq<string>, now: int)
    ensures var r := CheckResult(courseNames, states, data, stopTimes, link, polls, cells, now);
      (CourseOf(courseNames, link).None? ==> r == Checked(states, [])) &&
      (forall c :: c in r.states <==> c in states || CourseOf(courseNames, link) == Some(c)) &&
      (forall c :: c in states && CourseOf(courseNames, link) != Some(c) ==> r.states[c] == states[c])
  {
    var course := CourseOf(courseNames, link);
    var r := CheckResult(courseNames, states, data, stopTimes, link, polls, cells, now);
    if course.Some? {
      var out := CheckCourse(InitialStates(states, course.value), data, stopTimes, course.value, polls, cells, now);
      assert r.states == states[course.value := out.states];
    }
  }

  /**
   * Nothing is sent unless the wait showed sections and every seat count parsed,
   * and nothing is sent to a subscriber past its stop time.
   */
  lemma CheckResultAddressees(courseNames: map<string, string>, states: map<string, States>, data: seq<Subscriber>,
                              stopTimes: map<string, int>, link: string, polls: seq<Poll>, cells: seq<string>, now: int)
    ensures var r := CheckResult(courseNames, states, data, stopTimes, link, polls, cells, now);
      (r.events != [] ==> WaitOutcome(polls) == SectionsShown && StrideSections(cells).Some?) &&
      (forall e :: e in r.events ==> !Expired(stopTimes, e.webhook, now))
  {
    match CourseOf(courseNames, link)
    case None =>
    case Some(c) =>
      if WaitOutcome(polls) == SectionsShown && StrideSections(cells).Some? {
        assert CheckResult(courseNames, states, data, stopTimes, link, polls, cells, now).events ==
          Pass(Backend, InitialStates(states, c), Jobs(data, stopTimes, now, Some(c)), StrideSections(cells).value).events;
        BackendPassAddressees(data, stopTimes, now, c, InitialStates(states, c), StrideSections(cells).value);
      }
  }

  // ---- the window loop of `run` ----

  /** What switching to a window finds: it was closed, it is the offscreen page, or a page. */
  datatype Page = Closed | Offscreen | Shown(currentUrl: string, polls: seq<Poll>, cells: seq<string>)

  datatype Visit = Visit(handle: string, page: Page)

  datatype Sweep = Sweep(tabLinks: map<string, string>, states: map<string, States>, events: seq<Event>)

  /** One window of the loop; a closed window loses its link, a new one records its URL. */
  function VisitOne(courseNames: map<string, string>, data: seq<Subscriber>, stopTimes: map<string, int>,
                    now: int, sw: Sweep, v: Visit): Sweep
  {
    match v.page
    case Closed => Sweep(sw.tabLinks - {v.handle}, sw.states, sw.events)
    case Offscreen => sw
    case Shown(url, polls, cells) =>
      var links := if v.handle in sw.tabLinks then sw.tabLinks else sw.tabLinks[v.handle := url];
      var r := CheckResult(courseNames, sw.states, data, stopTimes, links[v.handle], polls, cells, now);
      Sweep(links, r.states, sw.events + r.events)
  }

  function VisitAll(courseNames: map<string, string>, data: seq<Subscriber>, stopTimes: map<string, int>,
                    now: int, sw: Sweep, visits: seq<Visit>): Sweep
  {
    if visits == [] then sw
    else VisitOne(courseNames, data, stopTimes, now, VisitAll(courseNames, data, stopTimes, now, sw, visits[..|visits| - 1]),
                  visits[|visits| - 1])
  }

  /** No later visit is to the same window. */
  predicate LastVisitOf(visits: seq<Visit>, i: nat)
    requires i < |visits|
  {
    forall k :: i < k < |visits| ==> visits[k].handle != visits[i].handle
  }

  /** One window: events are appended, never to an expired subscriber, and section states are kept. */
  lemma VisitOneProperties(courseNames: map<string, string>, data: seq<Subscriber>, stopTimes: map<string, int>,
                           now: int, sw: Sweep, v: Visit)
    ensures var r := VisitOne(courseNames, data, stopTimes, now, sw, v);
      sw.events <= r.events &&
      (forall k :: |sw.events| <= k < |r.events| ==> !Expired(stopTimes, r.events[k].webhook, now)) &&
      (forall c :: c in sw.states ==> c in r.states) &&
      (v.page.Shown? ==> v.handle in r.tabLinks) &&
      (v.page.Closed? ==> v.handle !in r.tabLinks) &&
      (forall h :: h in sw.tabLinks && !(h == v.handle && v.page.Closed?) ==>
         h in r.tabLinks && r.tabLinks[h] == sw.tabLinks[h]) &&
      (forall h :: h in r.tabLinks ==> h in sw.tabLinks || h == v.handle)
  {
    if v.page.Shown? {
      var links := if v.handle in sw.tabLinks then sw.tabLinks else sw.tabLinks[v.handle := v.page.currentUrl];
      CheckResultFrame(courseNames, sw.states, data, stopTimes, links[v.handle], v.page.polls, v.page.cells, now);
      CheckResultAddressees(courseNames, sw.states, data, stopTimes, links[v.handle], v.page.polls, v.page.cells, now);
      var r := VisitOne(courseNames, data, stopTimes, now, sw, v);
      var cr := CheckResult(courseNames, sw.states, data, stopTimes, links[v.handle], v.page.polls, v.page.cells, now);
      assert r.events == sw.events + cr.events;
      assert forall k :: |sw.events| <= k < |r.events| ==> r.events[k] in cr.events;
    }
  }

  /**
   * Over a whole sweep of the windows: events only accumulate and none goes to a
   * subscriber past its stop time.
   */
  lemma {:induction false} VisitAllEvents(courseNames: map<string, string>, data: seq<Subscriber>,
                                          stopTimes: map<string, int>, now: int, sw: Sweep, visits: seq<Visit>)
    ensures var r := VisitAll(courseNames, data, stopTimes, now, sw, visits);
      sw.events <= r.events &&
      (forall k :: |sw.events| <= k < |r.events| ==> !Expired(stopTimes, r.events[k].webhook, now))
  {
    if visits != [] {
      var init := visits[..|visits| - 1];
      VisitAllEvents(courseNames, data, stopTimes, now, sw, init);
      var mid := VisitAll(courseNames, data, stopTimes, now, sw, init);
      VisitOneProperties(courseNames, data, stopTimes, now, mid, visits[|visits| - 1]);
    }
  }

  /**
   * No course's section state is dropped, a window shown on its last visit
   * keeps a link afterwards, and a window never found closed keeps its link
   * unchanged.
   */
  lemma {:induction false} VisitAllKeeps(courseNames: map<string, string>, data: seq<Subscriber>,
                                         stopTimes: map<string, int>, now: int, sw: Sweep, visits: seq<Visit>)
    ensures var r := VisitAll(courseNames, data, stopTimes, now, sw, visits);
      (forall c :: c in sw.states ==> c in r.states) &&
      (forall i :: 0 <= i < |visits| && visits[i].page.Shown? && LastVisitOf(visits, i) ==> visits[i].handle in r.tabLinks) &&
      (forall h :: h in sw.tabLinks && (forall i :: 0 <= i < |visits| && visits[i].handle == h ==> !visits[i].page.Closed?) ==>
         h in r.tabLinks && r.tabLinks[h] == sw.tabLinks[h])
  {
    if visits != [] {
      var init := visits[..|visits| - 1];
      var last := visits[|visits| - 1];
      VisitAllKeeps(courseNames, data, stopTimes, now, sw, init);
      VisitOneProperties(courseNames, data, stopTimes, now, VisitAll(courseNames, data, stopTimes, now, sw, init), last);
      assert forall i :: 0 <= i < |init| ==> visits[i] == init[i];
    }
  }
}
