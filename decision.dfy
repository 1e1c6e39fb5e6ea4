/**
 * The seat-availability decision of `check_sections`, for both versions of the
 * monitor: the backend one (howdyseek-backend/main.py) and the older root one
 * (main.py).  One pass visits, in order, every (subscriber, section) pair that the
 * version looks at (a `Job`) and threads the course's CRN -> seats map through
 * them, emitting notifications and (backend only) seat-count write-backs.
 */
module Decision {
  import opened Wrappers
  import opened Text

  /** One subscribed section as the monitor's config holds it. */
  datatype Section = Section(prof: string, course: string, crn: string, lastSeatCount: Option<int>)

  /** A config entry: a webhook and its sections, in dict order. */
  datatype Subscriber = Subscriber(webhook: string, sections: seq<Section>)

  datatype Title =
    | SeatsAvailable(seats: int)   // backend, first sight
    | SeatsAvailableUpper          // root version, first sight
    | SeatChange(prev: int, cur: int)
    | SectionFull

  /** What the monitor sends out: a webhook notification, or a PUT of the last seat count. */
  datatype Event =
    | Notify(webhook: string, title: Title, course: string, prof: string, crn: string)
    | WriteBack(webhook: string, crn: string, seats: int)

  datatype Version = Backend | Legacy

  /** One course's `section_states` entry: CRN -> last seen seat count. */
  type States = map<string, int>

  datatype Job = Job(webhook: string, section: Section)

  datatype Outcome = Outcome(states: States, events: seq<Event>)

  /** The notification title as each version formats it. */
  function TitleText(v: Version, t: Title): string
  {
    match t
    case SeatsAvailable(c) => "Seats Available (" + IntToString(c) + ")"
    case SeatsAvailableUpper => "SEATS AVAILABLE"
    case SeatChange(p, c) =>
      if v == Backend then "Seat Change: " + IntToString(p) + " → " + IntToString(c)
      else "SEAT CHANGE: " + IntToString(p) + " â†’ " + IntToString(c)
    case SectionFull => "Section Full"
  }

  /**
   * The title text tells the notifications apart: equal texts are titles of the
   * same kind, and a first-sight title of the backend names its count.
   */
  lemma TitleTextDistinguishes(v: Version, t1: Title, t2: Title)
    requires TitleText(v, t1) == TitleText(v, t2)
    ensures t1.SectionFull? <==> t2.SectionFull?
    ensures t1.SeatChange? <==> t2.SeatChange?
    ensures t1.SeatsAvailable? <==> t2.SeatsAvailable?
    ensures t1.SeatsAvailableUpper? <==> t2.SeatsAvailableUpper?
    ensures t1.SeatsAvailable? ==> t1 == t2
  {
    var s := TitleText(v, t1);
    assert |s| > 4 && s[1] == TitleText(v, t2)[1] && s[4] == TitleText(v, t2)[4];
    if t1.SeatsAvailable? && t2.SeatsAvailable? {
      var a1, a2 := IntToString(t1.seats), IntToString(t2.seats);
      assert s == "Seats Available (" + a1 + ")";
      assert s == "Seats Available (" + a2 + ")";
      assert a1 == s[17..|s| - 1] == a2;
      ParseIntOfIntToString(t1.seats);
      ParseIntOfIntToString(t2.seats);
    }
  }

  /** `_user_past_stop_time`: strictly after the stop time; no stop time, never. */
  predicate Expired(stopTimes: map<string, int>, webhook: string, now: int)
  {
    webhook in stopTimes && now > stopTimes[webhook]
  }

  lemma ExpiryIsStrict(stopTimes: map<string, int>, webhook: string, now: int)
    ensures webhook !in stopTimes ==> !Expired(stopTimes, webhook, now)
    ensures webhook in stopTimes ==> !Expired(stopTimes, webhook, stopTimes[webhook])
    ensures webhook in stopTimes ==> Expired(stopTimes, webhook, stopTimes[webhook] + 1)
  {
  }

  function NotifyFor(j: Job, t: Title): Event
  {
    Notify(j.webhook, t, j.section.course, j.section.prof, j.section.crn)
  }

  /** The body of the inner loop of `check_sections` for one (subscriber, section). */
  function Step(v: Version, st: States, j: Job, visible: map<string, int>): Outcome
  {
    var crn := j.section.crn;
    if crn in visible then
      var cur := visible[crn];
      match v
      case Backend =>
        var notes :=
          if crn !in st then
            if j.section.lastSeatCount.None? || j.section.lastSeatCount.value != cur
            then [NotifyFor(j, SeatsAvailable(cur))] else []
          else if st[crn] != cur then [NotifyFor(j, SeatChange(st[crn], cur))]
          else [];
        Outcome(st[crn := cur], notes + [WriteBack(j.webhook, crn, cur)])
      case Legacy =>
        if crn !in st then Outcome(st[crn := cur], [NotifyFor(j, SeatsAvailableUpper)])
        else if st[crn] != cur then Outcome(st[crn := cur], [NotifyFor(j, SeatChange(st[crn], cur))])
        else Outcome(st, [])
    else if crn in st then
      var full := if st[crn] > 0 then [NotifyFor(j, SectionFull)] else [];
      Outcome(st[crn := 0], if v == Backend then full + [WriteBack(j.webhook, crn, 0)] else full)
    else
      Outcome(st, [])
  }

  /** The whole decision loop over `jobs`, in order. */
  function Pass(v: Version, st: States, jobs: seq<Job>, visible: map<string, int>): Outcome
    decreases |jobs|
  {
    if jobs == [] then Outcome(st, [])
    else
      var before := Pass(v, st, jobs[..|jobs| - 1], visible);
      var last := Step(v, before.states, jobs[|jobs| - 1], visible);
      Outcome(last.states, before.events + last.events)
  }

  lemma PassAppend(v: Version, st: States, jobs: seq<Job>, j: Job, visible: map<string, int>)
    ensures Pass(v, st, jobs + [j], visible) ==
      var before := Pass(v, st, jobs, visible);
      var last := Step(v, before.states, j, visible);
      Outcome(last.states, before.events + last.events)
  {
    assert (jobs + [j])[..|jobs|] == jobs;
  }

  // ---- which (subscriber, section) pairs a pass visits ----

  /** The sections of one subscriber that pass the course filter (`None`: no filter). */
  function SectionJobs(webhook: string, sections: seq<Section>, course: Option<string>): seq<Job>
  {
    if sections == [] then []
    else
      var last := sections[|sections| - 1];
      SectionJobs(webhook, sections[..|sections| - 1], course) +
      (if course.None? || last.course == course.value then [Job(webhook, last)] else [])
  }

  /** All pairs visited: expired subscribers are skipped, then the course filter applies. */
  function Jobs(subs: seq<Subscriber>, stopTimes: map<string, int>, now: int, course: Option<string>): seq<Job>
  {
    if subs == [] then []
    else
      var last := subs[|subs| - 1];
      Jobs(subs[..|subs| - 1], stopTimes, now, course) +
      (if Expired(stopTimes, last.webhook, now) then [] else SectionJobs(last.webhook, last.sections, course))
  }

  /** Taking one more section adds that section's job exactly when it passes the filter. */
  lemma SectionJobsExtend(webhook: string, sections: seq<Section>, n: nat, course: Option<string>)
    requires n < |sections|
    ensures SectionJobs(webhook, sections[..n + 1], course) ==
      SectionJobs(webhook, sections[..n], course) +
      (if course.None? || sections[n].course == course.value then [Job(webhook, sections[n])] else [])
  {
    assert sections[..n + 1][..n] == sections[..n];
  }

  lemma {:induction false} SectionJobsSound(webhook: string, sections: seq<Section>, course: Option<string>)
    ensures forall j :: j in SectionJobs(webhook, sections, course) ==>
      j.webhook == webhook && j.section in sections && (course.None? || j.section.course == course.value)
    ensures forall k :: 0 <= k < |sections| && (course.None? || sections[k].course == course.value) ==>
      Job(webhook, sections[k]) in SectionJobs(webhook, sections, course)
  {
    if sections != [] {
      var init := sections[..|sections| - 1];
      SectionJobsSound(webhook, init, course);
      assert forall k :: 0 <= k < |init| ==> sections[k] == init[k];
    }
  }

  /**
   * Expired subscribers contribute no pair, every pair belongs to the course filtered
   * on, and every section of a live subscriber that passes the filter is visited.
   */
  lemma {:induction false} JobsSoundAndComplete(subs: seq<Subscriber>, stopTimes: map<string, int>, now: int, course: Option<string>)
    ensures forall j :: j in Jobs(subs, stopTimes, now, course) ==>
      !Expired(stopTimes, j.webhook, now) && (course.None? || j.section.course == course.value)
    ensures forall i, k ::
      (0 <= i < |subs| && 0 <= k < |subs[i].sections| &&
       !Expired(stopTimes, subs[i].webhook, now) && (course.None? || subs[i].sections[k].course == course.value))
      ==> Job(subs[i].webhook, subs[i].sections[k]) in Jobs(subs, stopTimes, now, course)
  {
    if subs != [] {
      var init := subs[..|subs| - 1];
      var last := subs[|subs| - 1];
      var tail := if Expired(stopTimes, last.webhook, now) then [] else SectionJobs(last.webhook, last.sections, course);
      assert Jobs(subs, stopTimes, now, course) == Jobs(init, stopTimes, now, course) + tail;
      JobsSoundAndComplete(init, stopTimes, now, course);
      SectionJobsSound(last.webhook, last.sections, course);
      forall i, k |
        0 <= i < |subs| && 0 <= k < |subs[i].sections| &&
        !Expired(stopTimes, subs[i].webhook, now) && (course.None? || subs[i].sections[k].course == course.value)
        ensures Job(subs[i].webhook, subs[i].sections[k]) in Jobs(subs, stopTimes, now, course)
      {
        if i < |init| {
          assert subs[i] == init[i];
        }
      }
    }
  }

  // ---- properties of a pass ----

  /** A CRN is settled once its state holds what the listing now says (0 when absent). */
  predicate Settled(st: States, crn: string, visible: map<string, int>)
  {
    crn in st && st[crn] == (if crn in visible then visible[crn] else 0)
  }

  predicate IsNotifyAbout(e: Event, crn: string)
  {
    e.Notify? && e.crn == crn
  }

  /** How many notifications about `crn` the events hold. */
  function NotifyCount(events: seq<Event>, crn: string): nat
  {
    if events == [] then 0
    else
      NotifyCount(events[..|events| - 1], crn) + (if IsNotifyAbout(events[|events| - 1], crn) then 1 else 0)
  }

  lemma NotifyCountShort(events: seq<Event>, crn: string)
    requires |events| <= 2
    ensures NotifyCount(events, crn) ==
      (if |events| > 0 && IsNotifyAbout(events[0], crn) then 1 else 0) +
      (if |events| > 1 && IsNotifyAbout(events[1], crn) then 1 else 0)
  {
    if |events| == 2 {
      assert events[..1][..0] == [];
    } else if |events| == 1 {
      assert events[..0] == [];
    }
  }

  lemma {:induction false} NotifyCountAppend(a: seq<Event>, b: seq<Event>, crn: string)
    ensures NotifyCount(a + b, crn) == NotifyCount(a, crn) + NotifyCount(b, crn)
    decreases |b|
  {
    if b == [] {
      assert a + b == a;
    } else {
      NotifyCountAppend(a, b[..|b| - 1], crn);
      assert (a + b)[..|a + b| - 1] == a + b[..|b| - 1];
    }
  }

  lemma StepOtherCrn(v: Version, st: States, j: Job, visible: map<string, int>, crn: string)
    requires j.section.crn != crn
    ensures var out := Step(v, st, j, visible);
      (crn in out.states <==> crn in st) && (crn in st ==> out.states[crn] == st[crn]) &&
      NotifyCount(out.events, crn) == 0
  {
    NotifyCountShort(Step(v, st, j, visible).events, crn);
  }

  lemma StepSameCrn(v: Version, st: States, j: Job, visible: map<string, int>)
    ensures var crn, out := j.section.crn, Step(v, st, j, visible);
      && ((crn in visible || crn in st) ==> Settled(out.states, crn, visible))
      && (Settled(st, crn, visible) ==> NotifyCount(out.events, crn) == 0)
      && NotifyCount(out.events, crn) <= 1
      && (crn !in visible && crn !in st ==> out == Outcome(st, []))
  {
    NotifyCountShort(Step(v, st, j, visible).events, j.section.crn);
  }

  /**
   * What a step compares the listing with: the count this session tracks for the
   * CRN, else (backend only) the count the store last recorded for the section.
   */
  function Known(v: Version, st: States, j: Job): Option<int>
  {
    if j.section.crn in st then Some(st[j.section.crn])
    else if v == Backend then j.section.lastSeatCount
    else None
  }

  /**
   * A listed CRN is notified exactly when its listed count differs from the known
   * one (nothing known counts as different); a CRN that left the listing exactly
   * when it was tracked with seats open.
   */
  lemma StepNotifiesIff(v: Version, st: States, j: Job, visible: map<string, int>)
    ensures var crn, out := j.section.crn, Step(v, st, j, visible);
      NotifyCount(out.events, crn) == 1 <==>
        if crn in visible then Known(v, st, j) != Some(visible[crn]) else crn in st && st[crn] > 0
  {
    var crn, out := j.section.crn, Step(v, st, j, visible);
    if crn in visible {
      var cur := visible[crn];
      var title := if crn in st then SeatChange(st[crn], cur) else if v == Backend then SeatsAvailable(cur) else SeatsAvailableUpper;
      var note := if Known(v, st, j) != Some(cur) then [NotifyFor(j, title)] else [];
      var back := if v == Backend then [WriteBack(j.webhook, crn, cur)] else [];
      assert out.events == note + back;
      NotifyCountOfStep(note, back, crn);
    } else if crn in st {
      var note := if st[crn] > 0 then [NotifyFor(j, SectionFull)] else [];
      var back := if v == Backend then [WriteBack(j.webhook, crn, 0)] else [];
      assert out.events == note + back;
      NotifyCountOfStep(note, back, crn);
    }
  }

  /** The events of a step: at most one notification about its CRN, then at most one write-back. */
  lemma NotifyCountOfStep(note: seq<Event>, back: seq<Event>, crn: string)
    requires |note| <= 1 && |back| <= 1
    requires forall e :: e in note ==> IsNotifyAbout(e, crn)
    requires forall e :: e in back ==> e.WriteBack?
    ensures NotifyCount(note + back, crn) == |note|
  {
    NotifyCountAppend(note, back, crn);
    NotifyCountShort(note, crn);
    NotifyCountShort(back, crn);
    if note != [] {
      assert note[0] in note;
    }
    if back != [] {
      assert back[0] in back;
    }
  }

  /**
   * A step's notification goes to its own subscriber about its own section, and
   * its title says why: "Section Full" exactly when the CRN left the listing, a
   * change from the tracked count to the listed one exactly when a tracked CRN
   * is listed, and otherwise the version's first-sight title.
   */
  lemma StepTitle(v: Version, st: States, j: Job, visible: map<string, int>)
    ensures var crn, out := j.section.crn, Step(v, st, j, visible);
      forall e :: e in out.events && e.Notify? ==>
        e.webhook == j.webhook && e.course == j.section.course && e.prof == j.section.prof && e.crn == crn &&
        (e.title.SectionFull? <==> crn !in visible) &&
        (e.title.SeatChange? <==> crn in visible && crn in st) &&
        (e.title.SeatChange? ==> e.title.prev == st[crn] && e.title.cur == visible[crn] && e.title.prev != e.title.cur) &&
        (e.title.SeatsAvailable? <==> crn in visible && crn !in st && v == Backend) &&
        (e.title.SeatsAvailable? ==> e.title.seats == visible[crn]) &&
        (e.title.SeatsAvailableUpper? <==> crn in visible && crn !in st && v == Legacy)
  {
  }

  /**
   * A backend step writes the count back exactly when its CRN is listed or
   * tracked: once, after any notification, with the count the state now holds.
   * A legacy step never writes back.
   */
  lemma StepWritesBack(v: Version, st: States, j: Job, visible: map<string, int>)
    ensures var crn, out := j.section.crn, Step(v, st, j, visible);
      (forall k :: 0 <= k < |out.events| && out.events[k].WriteBack? ==>
         v == Backend && k == |out.events| - 1 && crn in out.states &&
         out.events[k] == WriteBack(j.webhook, crn, out.states[crn])) &&
      (v == Backend && (crn in visible || crn in st) ==> out.events != [] && out.events[|out.events| - 1].WriteBack?)
  {
  }

  /** CRNs that no visited pair subscribes to keep their state and get no notification. */
  lemma {:induction false} PassFrame(v: Version, st: States, jobs: seq<Job>, visible: map<string, int>, crn: string)
    requires forall j :: j in jobs ==> j.section.crn != crn
    ensures var out := Pass(v, st, jobs, visible);
      (crn in out.states <==> crn in st) && (crn in st ==> out.states[crn] == st[crn]) &&
      NotifyCount(out.events, crn) == 0
  {
    if jobs != [] {
      var init := jobs[..|jobs| - 1];
      PassFrame(v, st, init, visible, crn);
      var before := Pass(v, st, init, visible);
      StepOtherCrn(v, before.states, jobs[|jobs| - 1], visible, crn);
      NotifyCountAppend(before.events, Step(v, before.states, jobs[|jobs| - 1], visible).events, crn);
    }
  }

  /** A tracked CRN stays tracked through a pass. */
  lemma {:induction false} PassKeepsTracked(v: Version, st: States, jobs: seq<Job>, visible: map<string, int>, crn: string)
    requires crn in st
    ensures crn in Pass(v, st, jobs, visible).states
  {
    if jobs != [] {
      PassKeepsTracked(v, st, jobs[..|jobs| - 1], visible, crn);
    }
  }

  /** A CRN neither listed nor tracked never becomes tracked. */
  lemma {:induction false} PassNeverTracksUnlisted(v: Version, st: States, jobs: seq<Job>, visible: map<string, int>, crn: string)
    requires crn !in visible && crn !in st
    ensures crn !in Pass(v, st, jobs, visible).states
  {
    if jobs != [] {
      PassNeverTracksUnlisted(v, st, jobs[..|jobs| - 1], visible, crn);
    }
  }

  /**
   * After a pass, every visited CRN that is listed, or was already tracked, holds the
   * listed count (0 when it fell out of the listing); a visited CRN that is neither
   * listed nor tracked stays untracked.
   */
  lemma {:induction false} PassSettles(v: Version, st: States, jobs: seq<Job>, visible: map<string, int>)
    ensures var out := Pass(v, st, jobs, visible);
      forall j :: j in jobs ==>
        if j.section.crn in visible || j.section.crn in st then Settled(out.states, j.section.crn, visible)
        else j.section.crn !in out.states
  {
    if jobs != [] {
      var init := jobs[..|jobs| - 1];
      var last := jobs[|jobs| - 1];
      PassSettles(v, st, init, visible);
      var before := Pass(v, st, init, visible);
      var out := Pass(v, st, jobs, visible);
      forall j | j in jobs
        ensures if j.section.crn in visible || j.section.crn in st then Settled(out.states, j.section.crn, visible)
                else j.section.crn !in out.states
      {
        var crn := j.section.crn;
        if crn !in visible && crn !in st {
          PassNeverTracksUnlisted(v, st, jobs, visible, crn);
        } else if crn != last.section.crn {
          StepOtherCrn(v, before.states, last, visible, crn);
          assert j in init;
        } else {
          if crn in st {
            PassKeepsTracked(v, st, init, visible, crn);
          }
          StepSameCrn(v, before.states, last, visible);
        }
      }
    }
  }

  /**
   * Within one pass each CRN is notified about at most once, however many
   * subscribers share it: the first visit settles the course's shared state, so every
   * later subscriber to that CRN sees no change.  Once a CRN is settled, nothing more
   * is sent for it.
   */
  lemma {:induction false} PassNotifiesAtMostOnce(v: Version, st: States, jobs: seq<Job>, visible: map<string, int>, crn: string)
    ensures var out := Pass(v, st, jobs, visible);
      && NotifyCount(out.events, crn) <= 1
      && (NotifyCount(out.events, crn) == 1 ==> Settled(out.states, crn, visible))
      && (Settled(st, crn, visible) ==> Settled(out.states, crn, visible) && NotifyCount(out.events, crn) == 0)
  {
    if jobs != [] {
      var init := jobs[..|jobs| - 1];
      var last := jobs[|jobs| - 1];
      PassNotifiesAtMostOnce(v, st, init, visible, crn);
      var before := Pass(v, st, init, visible);
      var step := Step(v, before.states, last, visible);
      NotifyCountAppend(before.events, step.events, crn);
      if last.section.crn == crn {
        StepSameCrn(v, before.states, last, visible);
      } else {
        StepOtherCrn(v, before.states, last, visible, crn);
      }
    }
  }

  /** A later subscriber to a CRN an earlier one just had processed is not notified. */
  lemma SecondSubscriberSilent(v: Version, st: States, first: Job, second: Job, visible: map<string, int>)
    requires first.section.crn == second.section.crn
    ensures var mid := Step(v, st, first, visible);
      NotifyCount(Step(v, mid.states, second, visible).events, second.section.crn) == 0
  {
    StepSameCrn(v, st, first, visible);
    var mid := Step(v, st, first, visible);
    StepSameCrn(v, mid.states, second, visible);
  }

  /** Backend: every visited pair gets the seat count written back, whether or not
      a notification went out (0 for a tracked CRN that fell out of the listing). */
  lemma {:induction false} PassWritesBack(st: States, jobs: seq<Job>, visible: map<string, int>)
    ensures var out := Pass(Backend, st, jobs, visible);
      forall j :: j in jobs && j.section.crn in visible ==>
        WriteBack(j.webhook, j.section.crn, visible[j.section.crn]) in out.events
    ensures var out := Pass(Backend, st, jobs, visible);
      forall j :: j in jobs && j.section.crn !in visible && j.section.crn in st ==>
        WriteBack(j.webhook, j.section.crn, 0) in out.events
  {
    if jobs != [] {
      var init := jobs[..|jobs| - 1];
      var last := jobs[|jobs| - 1];
      PassWritesBack(st, init, visible);
      var before := Pass(Backend, st, init, visible);
      var step := Step(Backend, before.states, last, visible);
      assert Pass(Backend, st, jobs, visible).events == before.events + step.events;
      if last.section.crn !in visible && last.section.crn in st {
        PassKeepsTracked(Backend, st, init, visible, last.section.crn);
      }
    }
  }

  /** A step only speaks to its own subscriber about its own CRN. */
  lemma StepEventsFromJob(v: Version, st: States, j: Job, visible: map<string, int>)
    ensures forall e :: e in Step(v, st, j, visible).events ==>
      e.webhook == j.webhook && e.crn == j.section.crn && (v == Legacy ==> e.Notify?)
  {
  }

  /** Every event is addressed to the webhook of a visited pair and names its CRN. */
  lemma {:induction false} PassEventsFromJobs(v: Version, st: States, jobs: seq<Job>, visible: map<string, int>)
    ensures forall e :: e in Pass(v, st, jobs, visible).events ==>
      (v == Legacy ==> e.Notify?) && exists j :: j in jobs && j.webhook == e.webhook && j.section.crn == e.crn
  {
    if jobs != [] {
      var init := jobs[..|jobs| - 1];
      var last := jobs[|jobs| - 1];
      PassEventsFromJobs(v, st, init, visible);
      var before := Pass(v, st, init, visible);
      var step := Step(v, before.states, last, visible);
      StepEventsFromJob(v, before.states, last, visible);
      assert Pass(v, st, jobs, visible).events == before.events + step.events;
      forall e | e in Pass(v, st, jobs, visible).events
        ensures (v == Legacy ==> e.Notify?) && exists j :: j in jobs && j.webhook == e.webhook && j.section.crn == e.crn
      {
        if e in before.events {
          var j :| j in init && j.webhook == e.webhook && j.section.crn == e.crn;
          assert j in jobs;
        } else {
          assert last in jobs;
        }
      }
    }
  }

  /** Backend pass: an expired subscriber receives nothing, and every event names a
      CRN a live subscriber follows in the course being checked. */
  lemma BackendPassAddressees(subs: seq<Subscriber>, stopTimes: map<string, int>, now: int, course: string,
                              st: States, visible: map<string, int>)
    ensures var out := Pass(Backend, st, Jobs(subs, stopTimes, now, Some(course)), visible);
      forall e :: e in out.events ==> !Expired(stopTimes, e.webhook, now)
    ensures var jobs := Jobs(subs, stopTimes, now, Some(course));
      forall e :: e in Pass(Backend, st, jobs, visible).events ==>
        exists j :: j in jobs && j.webhook == e.webhook && j.section.crn == e.crn && j.section.course == course
  {
    var jobs := Jobs(subs, stopTimes, now, Some(course));
    JobsSoundAndComplete(subs, stopTimes, now, Some(course));
    PassEventsFromJobs(Backend, st, jobs, visible);
  }

  /** Every visited pair comes from a subscriber of the config and one of its sections. */
  lemma {:induction false} JobsFromSubscribers(subs: seq<Subscriber>, stopTimes: map<string, int>, now: int, course: Option<string>)
    ensures forall j :: j in Jobs(subs, stopTimes, now, course) ==>
      exists i :: 0 <= i < |subs| && subs[i].webhook == j.webhook && j.section in subs[i].sections
  {
    if subs != [] {
      var init := subs[..|subs| - 1];
      var last := subs[|subs| - 1];
      JobsFromSubscribers(init, stopTimes, now, course);
      SectionJobsSound(last.webhook, last.sections, course);
      forall j | j in Jobs(subs, stopTimes, now, course)
        ensures exists i :: 0 <= i < |subs| && subs[i].webhook == j.webhook && j.section in subs[i].sections
      {
        if j in Jobs(init, stopTimes, now, course) {
          var i :| 0 <= i < |init| && init[i].webhook == j.webhook && j.section in init[i].sections;
          assert subs[i] == init[i];
        } else {
          assert subs[|subs| - 1] == last;
        }
      }
    }
  }

  /**
   * Legacy pass (no stop times, no course filter): only notifications are sent,
   * each to a subscriber of the config about the CRN of one of its sections.
   */
  lemma LegacyPassAddressees(subs: seq<Subscriber>, st: States, visible: map<string, int>)
    ensures forall e :: e in Pass(Legacy, st, Jobs(subs, map[], 0, None), visible).events ==>
      e.Notify? &&
      exists i, s :: 0 <= i < |subs| && s in subs[i].sections && subs[i].webhook == e.webhook && s.crn == e.crn
  {
    var jobs := Jobs(subs, map[], 0, None);
    PassEventsFromJobs(Legacy, st, jobs, visible);
    JobsFromSubscribers(subs, map[], 0, None);
    forall e | e in Pass(Legacy, st, jobs, visible).events
      ensures exists i, s :: 0 <= i < |subs| && s in subs[i].sections && subs[i].webhook == e.webhook && s.crn == e.crn
    {
      var j :| j in jobs && j.webhook == e.webhook && j.section.crn == e.crn;
      var i :| 0 <= i < |subs| && subs[i].webhook == j.webhook && j.section in subs[i].sections;
    }
  }
}
