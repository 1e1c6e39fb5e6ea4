/**
 * The legacy monitor (`HowdySeek` in the repository's root main.py): a JSON
 * config mapping each webhook to its sections, tabs opened once at start-up,
 * and a window loop whose `check_sections` re-reads the config after every
 * successful extraction.  The functions describe each operation; the class
 * `LegacyHowdySeek` is proved against them.
 */
module LegacyMonitor {
  import opened Wrappers
  import opened Text
  import opened Extraction
  import opened Decision
  import opened Scheduler
  import opened MonitorSpec
  import opened Notifier

  // ---- the courses of the config ----

  /** The courses a list of sections names. */
  function SectionCourses(sections: seq<Section>): set<string>
  {
    if sections == [] then {}
    else SectionCourses(sections[..|sections| - 1]) + {sections[|sections| - 1].course}
  }

  /** The `courses` set `create_tabs` collects from every section of every webhook. */
  function ConfiguredCourses(data: seq<Subscriber>): set<string>
  {
    if data == [] then {}
    else ConfiguredCourses(data[..|data| - 1]) + SectionCourses(data[|data| - 1].sections)
  }

  lemma {:induction false} SectionCoursesMembers(sections: seq<Section>)
    ensures forall c :: c in SectionCourses(sections) <==> exists k :: 0 <= k < |sections| && sections[k].course == c
  {
    if sections != [] {
      var init := sections[..|sections| - 1];
      SectionCoursesMembers(init);
      assert forall k :: 0 <= k < |init| ==> sections[k] == init[k];
    }
  }

  /** A course is collected exactly when some section of some webhook names it. */
  lemma {:induction false} ConfiguredCoursesMembers(data: seq<Subscriber>)
    ensures forall c :: c in ConfiguredCourses(data) <==>
      exists i, k :: 0 <= i < |data| && 0 <= k < |data[i].sections| && data[i].sections[k].course == c
  {
    if data != [] {
      var init := data[..|data| - 1];
      var last := data[|data| - 1];
      ConfiguredCoursesMembers(init);
      SectionCoursesMembers(last.sections);
      assert forall i :: 0 <= i < |init| ==> data[i] == init[i];
      forall c | c in ConfiguredCourses(data)
        ensures exists i, k :: 0 <= i < |data| && 0 <= k < |data[i].sections| && data[i].sections[k].course == c
      {
        if c !in ConfiguredCourses(init) {
          var k :| 0 <= k < |last.sections| && last.sections[k].course == c;
          assert data[|data| - 1].sections[k].course == c;
        }
      }
    }
  }

  /** The nested loop at the head of `create_tabs`. */
  method CollectCourses(data: seq<Subscriber>) returns (courses: set<string>)
    ensures courses == ConfiguredCourses(data)
  {
    courses := {};
    var i := 0;
    while i < |data|
      invariant 0 <= i <= |data|
      invariant courses == ConfiguredCourses(data[..i])
    {
      var sections := data[i].sections;
      ghost var before := courses;
      var j := 0;
      while j < |sections|
        invariant 0 <= j <= |sections|
        invariant courses == before + SectionCourses(sections[..j])
      {
        assert sections[..j + 1][..j] == sections[..j];
        courses := courses + {sections[j].course};
        j := j + 1;
      }
      assert sections[..j] == sections;
      assert data[..i + 1][..i] == data[..i];
      i := i + 1;
    }
    assert data[..i] == data;
  }

  // ---- `create_tabs` ----

  /** What `create_tabs` leaves behind: `course_names`, and whether a wait raised (which ends the program). */
  datatype Placed = Placed(courseNames: map<string, string>, crashed: bool)

  /** The listing loaded and one of its rows has `course` as its first line. */
  predicate Listed(listing: Listing, course: string)
  {
    listing.Loaded? && Locate(Legacy, listing.rows, course).At?
  }

  /** The URL the first row of `course` leads to. */
  function Landing(listing: Listing, course: string): string
    requires Listed(listing, course)
  {
    LocateFound(Legacy, listing.rows, course);
    listing.rows[Locate(Legacy, listing.rows, course).index].landingUrl
  }

  /** One iteration of the course loop: a wait that raised, a recorded URL id, or a course not in the table. */
  function PlaceCourse(names: map<string, string>, course: string, listing: Listing): Placed
  {
    if listing.Unavailable? then Placed(names, true)
    else if Listed(listing, course) then Placed(names[UrlId(Landing(listing, course)) := course], false)
    else Placed(names, false)
  }

  /** The course loop over `courses`, stopping at the first raise. */
  function PlaceAll(names: map<string, string>, courses: seq<string>, load: string -> Listing): Placed
  {
    if courses == [] then Placed(names, false)
    else
      var before := PlaceAll(names, courses[..|courses| - 1], load);
      if before.crashed then before
      else PlaceCourse(before.courseNames, courses[|courses| - 1], load(courses[|courses| - 1]))
  }

  /**
   * The loop raises exactly when some course's listing did not load; URL ids are
   * only added, every new or changed entry names a course of the loop, and
   * without a raise every listed course's landing URL id is recorded.
   */
  lemma {:induction false} PlaceAllEffect(names: map<string, string>, courses: seq<string>, load: string -> Listing)
    ensures var r := PlaceAll(names, courses, load);
      (r.crashed <==> exists i :: 0 <= i < |courses| && load(courses[i]).Unavailable?) &&
      (forall id :: id in names ==> id in r.courseNames) &&
      (forall id :: id in r.courseNames ==> (id in names && r.courseNames[id] == names[id]) || r.courseNames[id] in courses) &&
      (!r.crashed ==> forall i :: 0 <= i < |courses| && Listed(load(courses[i]), courses[i]) ==>
         UrlId(Landing(load(courses[i]), courses[i])) in r.courseNames)
  {
    if courses != [] {
      var init := courses[..|courses| - 1];
      var last := courses[|courses| - 1];
      PlaceAllEffect(names, init, load);
      assert forall i :: 0 <= i < |init| ==> courses[i] == init[i];
      assert forall c :: c in init ==> c in courses;
    }
  }

  /** After a raise the rest of the loop is not run. */
  lemma {:induction false} PlaceAllStopsAtCrash(names: map<string, string>, courses: seq<string>, n: nat,
                                                load: string -> Listing)
    requires n <= |courses| && PlaceAll(names, courses[..n], load).crashed
    ensures PlaceAll(names, courses, load) == PlaceAll(names, courses[..n], load)
  {
    if n < |courses| {
      var init := courses[..|courses| - 1];
      assert init[..n] == courses[..n];
      PlaceAllStopsAtCrash(names, init, n, load);
    } else {
      assert courses[..n] == courses;
    }
  }

  // ---- `check_sections` ----

  /** What `check_sections` leaves behind: the section states, the config, and the notifications sent. */
  datatype LegacyChecked = LegacyChecked(states: map<string, States>, data: seq<Subscriber>, events: seq<Event>)

  /**
   * `check_sections(current_link)`: the course's state is created when missing;
   * the wait, then the extraction, then the config reload must succeed before
   * every pair of the reloaded config is decided against the listing.  A reload
   * that raises leaves the config as it was.
   */
  function LegacyCheckResult(courseNames: map<string, string>, states: map<string, States>, data: seq<Subscriber>,
                             link: string, polls: seq<Poll>, cells: seq<string>,
                             reload: Option<seq<Subscriber>>): LegacyChecked
  {
    match CourseOf(courseNames, link)
    case None => LegacyChecked(states, data, [])
    case Some(c) =>
      var r := LegacyCheckCourse(InitialStates(states, c), data, polls, cells, reload);
      LegacyChecked(states[c := r.0.states], r.1, r.0.events)
  }

  /** The part of `check_sections` after the course is known: its new state and events, and the config after it. */
  function LegacyCheckCourse(st: States, data: seq<Subscriber>, polls: seq<Poll>, cells: seq<string>,
                             reload: Option<seq<Subscriber>>): (Outcome, seq<Subscriber>)
  {
    if WaitOutcome(polls) == SectionsShown && StrideSections(cells).Some? && reload.Some? then
      (Pass(Legacy, st, Jobs(reload.value, map[], 0, None), StrideSections(cells).value), reload.value)
    else (Outcome(st, []), data)
  }

  /**
   * An unknown tab changes nothing; only its course's state is touched (and
   * created when missing); the config is replaced only by a reload that
   * succeeded, and nothing is sent unless wait, extraction and reload all did.
   */
  lemma LegacyCheckFrame(courseNames: map<string, string>, states: map<string, States>, data: seq<Subscriber>,
                         link: string, polls: seq<Poll>, cells: seq<string>, reload: Option<seq<Subscriber>>)
    ensures var r := LegacyCheckResult(courseNames, states, data, link, polls, cells, reload);
      (CourseOf(courseNames, link).None? ==> r == LegacyChecked(states, data, [])) &&
      (forall c :: c in r.states <==> c in states || CourseOf(courseNames, link) == Some(c)) &&
      (forall c :: c in states && CourseOf(courseNames, link) != Some(c) ==> r.states[c] == states[c]) &&
      (r.data == data || reload == Some(r.data)) &&
      (r.events != [] ==> WaitOutcome(polls) == SectionsShown && StrideSections(cells).Some? && reload == Some(r.data))
  {
  }

  /** Only notifications are sent, each to a webhook of the reloaded config about the CRN of one of its sections. */
  lemma LegacyCheckAddressees(courseNames: map<string, string>, states: map<string, States>, data: seq<Subscriber>,
                              link: string, polls: seq<Poll>, cells: seq<string>, reload: Option<seq<Subscriber>>)
    ensures var r := LegacyCheckResult(courseNames, states, data, link, polls, cells, reload);
      forall e :: e in r.events ==>
        e.Notify? &&
        exists i, s :: 0 <= i < |r.data| && s in r.data[i].sections && r.data[i].webhook == e.webhook && s.crn == e.crn
  {
    match CourseOf(courseNames, link)
    case None =>
    case Some(c) =>
      if WaitOutcome(polls) == SectionsShown && StrideSections(cells).Some? && reload.Some? {
        LegacyPassAddressees(reload.value, InitialStates(states, c), StrideSections(cells).value);
      }
  }

  // ---- the window loop of `run` ----

  /** One window of the loop: what switching to it finds, and what a config reload there answers. */
  datatype LegacyVisit = LegacyVisit(handle: string, page: Page, reload: Option<seq<Subscriber>>)

  datatype LegacySweep = LegacySweep(tabLinks: map<string, string>, states: map<string, States>,
                                     data: seq<Subscriber>, events: seq<Event>)

  /** One window: a closed window is skipped (its link stays), a new one records its URL. */
  function LegacyVisitOne(courseNames: map<string, string>, sw: LegacySweep, v: LegacyVisit): LegacySweep
  {
    match v.page
    case Closed => sw
    case Offscreen => sw
    case Shown(url, polls, cells) =>
      var links := if v.handle in sw.tabLinks then sw.tabLinks else sw.tabLinks[v.handle := url];
      var r := LegacyCheckResult(courseNames, sw.states, sw.data, links[v.handle], polls, cells, v.reload);
      LegacySweep(links, r.states, r.data, sw.events + r.events)
  }

  function LegacyVisitAll(courseNames: map<string, string>, sw: LegacySweep, visits: seq<LegacyVisit>): LegacySweep
  {
    if visits == [] then sw
    else LegacyVisitOne(courseNames, LegacyVisitAll(courseNames, sw, visits[..|visits| - 1]), visits[|visits| - 1])
  }

  /** One window: events are appended and are all notifications; recorded links and states are kept. */
  lemma LegacyVisitOneProperties(courseNames: map<string, string>, sw: LegacySweep, v: LegacyVisit)
    ensures var r := LegacyVisitOne(courseNames, sw, v);
      sw.events <= r.events &&
      (forall k :: |sw.events| <= k < |r.events| ==> r.events[k].Notify?) &&
      (forall h :: h in sw.tabLinks ==> h in r.tabLinks && r.tabLinks[h] == sw.tabLinks[h]) &&
      (v.page.Shown? ==> v.handle in r.tabLinks) &&
      (forall c :: c in sw.states ==> c in r.states)
  {
    if v.page.Shown? {
      var links := if v.handle in sw.tabLinks then sw.tabLinks else sw.tabLinks[v.handle := v.page.currentUrl];
      var cr := LegacyCheckResult(courseNames, sw.states, sw.data, links[v.handle], v.page.polls, v.page.cells, v.reload);
      LegacyCheckFrame(courseNames, sw.states, sw.data, links[v.handle], v.page.polls, v.page.cells, v.reload);
      LegacyCheckAddressees(courseNames, sw.states, sw.data, links[v.handle], v.page.polls, v.page.cells, v.reload);
      var r := LegacyVisitOne(courseNames, sw, v);
      assert r.events == sw.events + cr.events;
      assert forall k :: |sw.events| <= k < |r.events| ==> r.events[k] in cr.events;
    }
  }

  /**
   * Over a sweep: events only accumulate and are all notifications (the legacy
   * monitor writes nothing back), a recorded link is never changed or dropped,
   * and every window that was shown keeps a link.
   */
  lemma {:induction false} LegacyVisitAllProperties(courseNames: map<string, string>, sw: LegacySweep,
                                                    visits: seq<LegacyVisit>)
    ensures var r := LegacyVisitAll(courseNames, sw, visits);
      sw.events <= r.events &&
      (forall k :: |sw.events| <= k < |r.events| ==> r.events[k].Notify?) &&
      (forall h :: h in sw.tabLinks ==> h in r.tabLinks && r.tabLinks[h] == sw.tabLinks[h]) &&
      (forall i :: 0 <= i < |visits| && visits[i].page.Shown? ==> visits[i].handle in r.tabLinks) &&
      (forall c :: c in sw.states ==> c in r.states)
  {
    if visits != [] {
      var init := visits[..|visits| - 1];
      LegacyVisitAllProperties(courseNames, sw, init);
      LegacyVisitOneProperties(courseNames, LegacyVisitAll(courseNames, sw, init), visits[|visits| - 1]);
      assert forall i :: 0 <= i < |init| ==> visits[i] == init[i];
    }
  }

  // ---- the monitor ----

  class LegacyHowdySeek {
    /** URL id of a tab's sections page to its course. */
    var courseNames: map<string, string>
    /** Per course, the last seat count seen for each CRN. */
    var sectionStates: map<string, States>
    /** Window handle to the URL first seen in it. */
    var tabLinks: map<string, string>
    /** The config: webhooks in file order, each with its sections. */
    var data: seq<Subscriber>

    /** `__init__` with the config file already read (a failed read ends the program). */
    constructor (config: seq<Subscriber>)
      ensures courseNames == map[] && sectionStates == map[] && tabLinks == map[] && data == config
    {
      courseNames := map[];
      sectionStates := map[];
      tabLinks := map[];
      data := config;
    }

    /**
     * `create_tabs`, visiting the configured courses in `order` (the set's
     * iteration order): a wait that times out raises out of the loop.
     */
    method CreateTabs(order: seq<string>, load: string -> Listing) returns (crashed: bool)
      requires IsEnumeration(order, ConfiguredCourses(data))
      modifies this`courseNames
      ensures Placed(courseNames, crashed) == PlaceAll(old(courseNames), order, load)
    {
      var courses := CollectCourses(data);
      assert IsEnumeration(order, courses);
      var i := 0;
      while i < |order|
        invariant 0 <= i <= |order|
        invariant Placed(courseNames, false) == PlaceAll(old(courseNames), order[..i], load)
      {
        var course := order[i];
        assert order[..i + 1][..i] == order[..i];
        var listing := load(course);
        if listing.Unavailable? {
          PlaceAllStopsAtCrash(old(courseNames), order, i + 1, load);
          return true;
        }
        var found := FindCourseRow(Legacy, listing.rows, course);
        if found.At? {
          LocateFound(Legacy, listing.rows, course);
          courseNames := courseNames[UrlId(listing.rows[found.index].landingUrl) := course];
        }
        i := i + 1;
      }
      assert order[..i] == order;
      return false;
    }

    /** `check_sections(current_link)`; `reload` is what re-reading the config answers (None: it raised). */
    method CheckSections(link: string, polls: seq<Poll>, cells: seq<string>, reload: Option<seq<Subscriber>>)
      returns (events: seq<Event>)
      modifies this`sectionStates, this`data
      ensures LegacyChecked(sectionStates, data, events) ==
        LegacyCheckResult(courseNames, old(sectionStates), old(data), link, polls, cells, reload)
    {
      var course := CourseOf(courseNames, link);
      if course.None? {
        return [];
      }
      var c := course.value;
      var states := sectionStates;
      var st0 := InitialStates(states, c);
      sectionStates := states[c := st0];   // `{}` when the course is new, else unchanged
      var shown := WaitForSections(polls);
      if shown != SectionsShown {
        return [];
      }
      var visible := ExtractVisible(cells);
      if visible.None? {
        return [];
      }
      if reload.None? {
        return [];
      }
      data := reload.value;
      var st, evs := RunPass(Legacy, data, map[], 0, None, st0, visible.value);
      assert LegacyCheckCourse(st0, old(data), polls, cells, reload) == (Outcome(st, evs), data);
      sectionStates := states[c := st];
      return evs;
    }

    /** The window loop of `run`, one pass over `visits`. */
    method VisitWindows(visits: seq<LegacyVisit>) returns (events: seq<Event>)
      modifies this`tabLinks, this`sectionStates, this`data
      ensures LegacySweep(tabLinks, sectionStates, data, events) ==
        LegacyVisitAll(courseNames, LegacySweep(old(tabLinks), old(sectionStates), old(data), []), visits)
    {
      events := [];
      var i := 0;
      while i < |visits|
        invariant 0 <= i <= |visits|
        invariant LegacySweep(tabLinks, sectionStates, data, events) ==
          LegacyVisitAll(courseNames, LegacySweep(old(tabLinks), old(sectionStates), old(data), []), visits[..i])
      {
        var visit := visits[i];
        assert visits[..i + 1][..i] == visits[..i];
        match visit.page {
          case Closed =>
          case Offscreen =>
          case Shown(url, polls, cells) =>
            if visit.handle !in tabLinks {
              tabLinks := tabLinks[visit.handle := url];
            }
            var checked := CheckSections(tabLinks[visit.handle], polls, cells, visit.reload);
            events := events + checked;
        }
        i := i + 1;
      }
      assert visits[..i] == visits;
    }

    /**
     * `run`: the tabs once, then the window loop; `visits` are the windows of
     * successive cycles one after the other.  A raise from `create_tabs` ends
     * the program before any window is visited.
     */
    method Run(order: seq<string>, load: string -> Listing, visits: seq<LegacyVisit>)
      returns (events: seq<Event>, crashed: bool)
      requires IsEnumeration(order, ConfiguredCourses(data))
      modifies this
      ensures courseNames == PlaceAll(old(courseNames), order, load).courseNames
      ensures crashed <==> exists i :: 0 <= i < |order| && load(order[i]).Unavailable?
      ensures crashed ==> events == [] && tabLinks == old(tabLinks) && sectionStates == old(sectionStates) && data == old(data)
      ensures !crashed ==>
        LegacySweep(tabLinks, sectionStates, data, events) ==
        LegacyVisitAll(courseNames, LegacySweep(old(tabLinks), old(sectionStates), old(data), []), visits)
      ensures forall k :: 0 <= k < |events| ==> events[k].Notify?
      ensures !crashed ==> forall i :: 0 <= i < |visits| && visits[i].page.Shown? ==> visits[i].handle in tabLinks
    {
      PlaceAllEffect(courseNames, order, load);
      crashed := CreateTabs(order, load);
      if crashed {
        return [], true;
      }
      ghost var start := LegacySweep(tabLinks, sectionStates, data, []);
      events := VisitWindows(visits);
      LegacyVisitAllProperties(courseNames, start, visits);
    }
  }
}
