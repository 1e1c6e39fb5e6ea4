/**
 * The backend monitor (`HowdySeek` in the backend's main.py) as a class over its
 * own fields.  The browser, the store's HTTP answers and the clock are
 * parameters of each operation; notifications and seat-count write-backs are
 * returned as events.
 */
module Monitor {
  import opened Wrappers
  import opened Text
  import opened Extraction
  import opened Decision
  import opened ConfigSync
  import opened Scheduler
  import opened MonitorSpec
  import opened Notifier

  class HowdySeek {
    /** URL id of a tab's sections page to its course. */
    var courseNames: map<string, string>
    /** Per course, the last seat count seen for each CRN in this session. */
    var sectionStates: map<string, States>
    /** Window handle to the URL of the page it shows. */
    var tabLinks: map<string, string>
    var refreshInterval: (real, real)
    var monitoredCourses: set<string>
    var userStopTimes: map<string, int>
    /** The config: subscribers in insertion order, each with its sections. */
    var data: seq<Subscriber>
    /** The module-level `FIRST_TAB_CREATED` flag. */
    var firstTabCreated: bool

    function Tabs(): Tabs
      reads this
    {
      MonitorSpec.Tabs(courseNames, tabLinks, monitoredCourses, firstTabCreated)
    }

    predicate Valid()
      reads this
    {
      Coherent(Tabs())
    }

    /** `__init__`: the refresh settings, then the config (which reloads the settings when it succeeds). */
    constructor (settings: Option<SettingsRecord>, users: Option<seq<UserRecord>>, settingsAgain: Option<SettingsRecord>)
      ensures Valid()
      ensures courseNames == map[] && sectionStates == map[] && tabLinks == map[] && monitoredCourses == {}
      ensures !firstTabCreated
      ensures data == ConfigAfter(users)
      ensures userStopTimes == StopTimesAfterLoad(map[], users)
      ensures refreshInterval == if users.Some? then RefreshInterval(settingsAgain) else RefreshInterval(settings)
    {
      courseNames := map[];
      sectionStates := map[];
      tabLinks := map[];
      refreshInterval := RefreshInterval(settings);
      monitoredCourses := {};
      userStopTimes := map[];
      firstTabCreated := false;
      data := [];
      new;
      data := LoadConfig(users, settingsAgain);
    }

    /** The stop-time bookkeeping `_load_config` does for one user. */
    method RecordStopTime(user: UserRecord)
      modifies this`userStopTimes
      ensures userStopTimes == StopTimesAfter(old(userStopTimes), [user])
    {
      assert [user][..0] == [];
      match user.stopTime {
        case Some(t) =>
          userStopTimes := userStopTimes[user.webhook := t];
        case None =>
          if user.webhook in userStopTimes {
            userStopTimes := userStopTimes - {user.webhook};
          } else {
            assert userStopTimes - {user.webhook} == userStopTimes;
          }
      }
    }

    /** `_load_config`: reshape a successful `/users/` answer, keeping stop times up to date. */
    method LoadConfig(answer: Option<seq<UserRecord>>, settings: Option<SettingsRecord>) returns (config: seq<Subscriber>)
      modifies this`userStopTimes, this`refreshInterval
      ensures config == ConfigAfter(answer)
      ensures userStopTimes == StopTimesAfterLoad(old(userStopTimes), answer)
      ensures refreshInterval == if answer.Some? then RefreshInterval(settings) else old(refreshInterval)
    {
      if answer.None? {
        return [];
      }
      var users := answer.value;
      config := [];
      var i := 0;
      while i < |users|
        invariant 0 <= i <= |users|
        invariant config == Reshape(users[..i])
        invariant userStopTimes == StopTimesAfter(old(userStopTimes), users[..i])
      {
        var user := users[i];
        assert users[..i + 1][..i] == users[..i];
        RecordStopTime(user);
        var courses := SectionsOf(user.courses);
        if courses != [] {
          config := Put(config, user.webhook, courses);
        }
        i := i + 1;
      }
      assert users[..i] == users;
      refreshInterval := RefreshInterval(settings);
    }

    /** The course names of every subscriber in `subs` not past its stop time. */
    method CoursesOf(subs: seq<Subscriber>, now: int) returns (courses: set<string>)
      ensures courses == ActiveCourses(subs, userStopTimes, now)
    {
      courses := {};
      var i := 0;
      while i < |subs|
        invariant 0 <= i <= |subs|
        invariant courses == ActiveCourses(subs[..i], userStopTimes, now)
      {
        var sub := subs[i];
        assert subs[..i + 1][..i] == subs[..i];
        if !Expired(userStopTimes, sub.webhook, now) {
          var j := 0;
          while j < |sub.sections|
            invariant 0 <= j <= |sub.sections|
            invariant courses == ActiveCourses(subs[..i], userStopTimes, now) + set k | 0 <= k < j :: sub.sections[k].course
          {
            courses := courses + {sub.sections[j].course};
            j := j + 1;
          }
        }
        i := i + 1;
      }
      assert subs[..i] == subs;
    }

    /** `_get_all_courses`. */
    method GetAllCourses(now: int) returns (courses: set<string>)
      ensures courses == ActiveCourses(data, userStopTimes, now)
    {
      courses := CoursesOf(data, now);
    }

    /** Click through `row` in the tab `handle` and record it for `course`. */
    method DesignateTab(course: string, row: Row, handle: string)
      modifies this`courseNames, this`tabLinks, this`monitoredCourses
      ensures Tabs() == Designate(old(Tabs()), course, row, handle)
    {
      courseNames := courseNames[UrlId(row.landingUrl) := course];
      tabLinks := tabLinks[handle := row.landingUrl];
      monitoredCourses := monitoredCourses + {course};
    }

    /**
     * `create_tab_for_course`: the first tab is set up in place (selecting the term),
     * later ones are opened anew; `listing` is what that tab's course list shows.
     */
    method CreateTabForCourse(course: string, listing: Listing) returns (ok: bool)
      requires Valid()
      modifies this`courseNames, this`tabLinks, this`monitoredCourses, this`firstTabCreated
      ensures Valid()
      ensures (Tabs(), ok) == AttemptTab(old(Tabs()), course, listing)
    {
      AttemptTabEffect(Tabs(), course, listing);
      if course in monitoredCourses {
        return true;
      }
      if !firstTabCreated {
        if listing.Unavailable? {
          if listing.termSelected {
            firstTabCreated := true;
          }
          return false;
        }
        firstTabCreated := true;
      } else if listing.Unavailable? {
        return false;
      }
      var at := FindCourseRow(Backend, listing.rows, course);
      if at.At? {
        LocateFound(Backend, listing.rows, course);
        DesignateTab(course, listing.rows[at.index], listing.handle);
        return true;
      }
      return false;
    }

    /** The first-tab branch of `create_tabs` (no exception is caught here). */
    method SetUpFirstTab(first: string, listing: Listing) returns (crashed: bool, placed: bool)
      requires Valid()
      modifies this`courseNames, this`tabLinks, this`monitoredCourses, this`firstTabCreated
      ensures Valid()
      ensures FirstTab(Tabs(), crashed, placed) == FirstTabResult(old(Tabs()), first, listing)
    {
      FirstTabEffect(Tabs(), first, listing);
      if listing.Unavailable? {
        if listing.termSelected {
          firstTabCreated := true;
        }
        return true, false;
      }
      firstTabCreated := true;
      var at := FindCourseRow(Backend, listing.rows, first);
      if at.Unreadable? {
        return true, false;
      }
      if at.At? {
        LocateFound(Backend, listing.rows, first);
        DesignateTab(first, listing.rows[at.index], listing.handle);
        return false, true;
      }
      return false, false;
    }

    /** The `for course_name in courses` loop of `create_tabs`. */
    method OpenTabs(courses: seq<string>, load: string -> Listing)
      requires Valid()
      modifies this`courseNames, this`tabLinks, this`monitoredCourses, this`firstTabCreated
      ensures Valid()
      ensures Tabs() == AttemptAll(old(Tabs()), courses, load)
    {
      var i := 0;
      while i < |courses|
        invariant 0 <= i <= |courses|
        invariant Valid()
        invariant Tabs() == AttemptAll(old(Tabs()), courses[..i], load)
      {
        var course := courses[i];
        assert courses[..i + 1][..i] == courses[..i];
        if course !in monitoredCourses {
          var placed := CreateTabForCourse(course, load(course));
        }
        i := i + 1;
      }
      assert courses[..i] == courses;
    }

    /**
     * `create_tabs`: the first active course (in `order`, the set's iteration order)
     * is tried in the first tab, the rest through `CreateTabForCourse`.  Only the
     * first tab's set-up can raise; `crashed` reports it.
     */
    method CreateTabs(now: int, order: seq<string>, load: string -> Listing) returns (crashed: bool)
      requires Valid()
      requires IsEnumeration(order, ActiveCourses(data, userStopTimes, now))
      modifies this`courseNames, this`tabLinks, this`monitoredCourses, this`firstTabCreated
      ensures Valid()
      ensures (Tabs(), crashed) == CreateTabsResult(old(Tabs()), order, load)
    {
      var courses := GetAllCourses(now);
      EnumerationEmpty(order, courses);
      if courses == {} {
        return false;
      }
      var remaining := order;
      if !firstTabCreated {
        var placed;
        crashed, placed := SetUpFirstTab(order[0], load(order[0]));
        if crashed {
          return true;
        }
        if placed {
          remaining := order[1..];
        }
      }
      OpenTabs(remaining, load);
      return false;
    }

    /** The loop of `check_for_new_courses` over the courses to add, in `order`. */
    method OpenNewTabs(order: seq<string>, toAdd: set<string>, load: string -> Listing)
      requires Valid()
      modifies this`courseNames, this`tabLinks, this`monitoredCourses, this`firstTabCreated
      ensures Valid()
      ensures Tabs() == AttemptAll(old(Tabs()), Filter(order, toAdd), load)
    {
      var i := 0;
      while i < |order|
        invariant 0 <= i <= |order|
        invariant Valid()
        invariant Tabs() == AttemptAll(old(Tabs()), Filter(order[..i], toAdd), load)
      {
        assert order[..i + 1][..i] == order[..i];
        ghost var f := Filter(order[..i], toAdd);
        if order[i] in toAdd {
          assert Filter(order[..i + 1], toAdd) == f + [order[i]];
          assert (f + [order[i]])[..|f|] == f;
          var placed := CreateTabForCourse(order[i], load(order[i]));
        } else {
          assert Filter(order[..i + 1], toAdd) == f;
        }
        i := i + 1;
      }
      assert order[..i] == order;
    }

    /**
     * `check_for_new_courses`: reload the config, then open tabs for active courses
     * not monitored yet, through `CreateTabs` while no tab exists.  `added` is the
     * returned flag.
     */
    method CheckForNewCourses(answer: Option<seq<UserRecord>>, settings: Option<SettingsRecord>, now: int,
                              order: seq<string>, load: string -> Listing) returns (added: bool, crashed: bool)
      requires Valid()
      requires IsEnumeration(order, ActiveCourses(ConfigAfter(answer), StopTimesAfterLoad(userStopTimes, answer), now))
      modifies this`data, this`userStopTimes, this`refreshInterval
      modifies this`courseNames, this`tabLinks, this`monitoredCourses, this`firstTabCreated
      ensures Valid()
      ensures data == ConfigAfter(answer) && userStopTimes == StopTimesAfterLoad(old(userStopTimes), answer)
      ensures refreshInterval == if answer.Some? then RefreshInterval(settings) else old(refreshInterval)
      ensures added == (ActiveCourses(data, userStopTimes, now) - old(monitoredCourses) != {})
      ensures (Tabs(), crashed) ==
        NewTabsResult(old(Tabs()), ActiveCourses(data, userStopTimes, now) - old(monitoredCourses), order, load)
    {
      var newData := LoadConfig(answer, settings);
      var newCourses := CoursesOf(newData, now);
      var toAdd := newCourses - monitoredCourses;
      data := newData;
      if toAdd != {} && !firstTabCreated {
        crashed := CreateTabs(now, order, load);
        return true, crashed;
      }
      OpenNewTabs(order, toAdd, load);
      return toAdd != {}, false;
    }

    /** `check_sections(current_link)`. */
    method CheckSections(link: string, polls: seq<Poll>, cells: seq<string>, now: int) returns (events: seq<Event>)
      modifies this`sectionStates
      ensures Checked(sectionStates, events) ==
        CheckResult(courseNames, old(sectionStates), data, userStopTimes, link, polls, cells, now)
    {
      var course := CourseOf(courseNames, link);
      if course.None? {
        return [];
      }
      var c := course.value;
      ghost var st0 := InitialStates(sectionStates, c);
      if c !in sectionStates {
        sectionStates := sectionStates[c := map[]];
      }
      assert sectionStates == old(sectionStates)[c := st0];
      var shown := WaitForSections(polls);
      if shown != SectionsShown {
        return [];
      }
      var visible := ExtractVisible(cells);
      if visible.None? {
        return [];
      }
      var st, evs := RunPass(Backend, data, userStopTimes, now, Some(c), sectionStates[c], visible.value);
      assert CheckCourse(st0, data, userStopTimes, c, polls, cells, now) == Outcome(st, evs);
      sectionStates := sectionStates[c := st];
      return evs;
    }

    /** The window loop of `run`, one pass over `visits`. */
    method VisitWindows(visits: seq<Visit>, now: int) returns (events: seq<Event>)
      modifies this`tabLinks, this`sectionStates
      ensures Sweep(tabLinks, sectionStates, events) ==
        VisitAll(courseNames, data, userStopTimes, now, Sweep(old(tabLinks), old(sectionStates), []), visits)
    {
      events := [];
      var i := 0;
      while i < |visits|
        invariant 0 <= i <= |visits|
        invariant Sweep(tabLinks, sectionStates, events) ==
          VisitAll(courseNames, data, userStopTimes, now, Sweep(old(tabLinks), old(sectionStates), []), visits[..i])
      {
        var visit := visits[i];
        assert visits[..i + 1][..i] == visits[..i];
        match visit.page {
          case Closed =>
            if visit.handle in tabLinks {
              tabLinks := tabLinks - {visit.handle};
            } else {
              assert tabLinks - {visit.handle} == tabLinks;
            }
          case Offscreen =>
          case Shown(url, polls, cells) =>
            if visit.handle !in tabLinks {
              tabLinks := tabLinks[visit.handle := url];
            }
            var checked := CheckSections(tabLinks[visit.handle], polls, cells, now);
            events := events + checked;
        }
        i := i + 1;
      }
      assert visits[..i] == visits;
    }

    /**
     * One cycle of `run`: look for new courses, then visit every window.  A raise
     * from the tab set-up ends `run`, so nothing is checked in that cycle.
     */
    method RunCycle(answer: Option<seq<UserRecord>>, settings: Option<SettingsRecord>, now: int,
                    order: seq<string>, load: string -> Listing, visits: seq<Visit>)
      returns (events: seq<Event>, crashed: bool)
      requires Valid()
      requires IsEnumeration(order, ActiveCourses(ConfigAfter(answer), StopTimesAfterLoad(userStopTimes, answer), now))
      modifies this
      ensures Valid()
      ensures data == ConfigAfter(answer) && userStopTimes == StopTimesAfterLoad(old(userStopTimes), answer)
      ensures refreshInterval == if answer.Some? then RefreshInterval(settings) else old(refreshInterval)
      ensures old(monitoredCourses) <= monitoredCourses
      ensures monitoredCourses - old(monitoredCourses) <= ActiveCourses(data, userStopTimes, now)
      ensures var next := NewTabsResult(old(Tabs()), ActiveCourses(data, userStopTimes, now) - old(monitoredCourses), order, load);
        crashed == next.1 &&
        courseNames == next.0.courseNames && monitoredCourses == next.0.monitored &&
        firstTabCreated == next.0.firstTabCreated &&
        (crashed ==> tabLinks == next.0.tabLinks && sectionStates == old(sectionStates)) &&
        (!crashed ==>
           Sweep(tabLinks, sectionStates, events) ==
           VisitAll(courseNames, data, userStopTimes, now, Sweep(next.0.tabLinks, old(sectionStates), []), visits))
      ensures crashed ==> events == []
      ensures forall k :: 0 <= k < |events| ==> !Expired(userStopTimes, events[k].webhook, now)
      ensures !crashed ==> forall c :: c in ActiveCourses(data, userStopTimes, now) ==>
        c in monitoredCourses || !Placeable(load(c), c)
    {
      NewTabsCover(Tabs(), ActiveCourses(ConfigAfter(answer), StopTimesAfterLoad(userStopTimes, answer), now), order, load);
      var added;
      added, crashed := CheckForNewCourses(answer, settings, now, order, load);
      if crashed {
        return [], true;
      }
      ghost var start := Sweep(tabLinks, sectionStates, []);
      events := VisitWindows(visits, now);
      VisitAllEvents(courseNames, data, userStopTimes, now, start, visits);
    }
  }

  /** The `courses` list `_load_config` builds for one user. */
  method SectionsOf(courses: seq<CourseRecord>) returns (sections: seq<Section>)
    ensures sections == ToSections(courses)
  {
    sections := [];
    var j := 0;
    while j < |courses|
      invariant 0 <= j <= |courses|
      invariant sections == ToSections(courses[..j])
    {
      assert courses[..j + 1][..j] == courses[..j];
      sections := sections + [ToSection(courses[j])];
      j := j + 1;
    }
    assert courses[..j] == courses;
  }
}
