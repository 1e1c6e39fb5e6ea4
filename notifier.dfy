/**
 * The nested loop both monitors' `check_sections` run over the config: every
 * (subscriber, section) pair is decided in dict order against the course's
 * section state.  Proved to compute `Pass` over `Jobs`.
 */
module Notifier {
  import opened Wrappers
  import opened Decision

  /**
   * The inner loop for one subscriber: each section that passes the course filter
   * is decided in turn.  `done` are the pairs already decided from `st0`.
   */
  method PassSubscriber(v: Version, ghost st0: States, ghost done: seq<Job>, st: States, events: seq<Event>,
                        sub: Subscriber, course: Option<string>, visible: map<string, int>)
    returns (st': States, events': seq<Event>)
    requires Outcome(st, events) == Pass(v, st0, done, visible)
    ensures Outcome(st', events') == Pass(v, st0, done + SectionJobs(sub.webhook, sub.sections, course), visible)
  {
    st', events' := st, events;
    var j := 0;
    assert done + SectionJobs(sub.webhook, sub.sections[..0], course) == done;
    while j < |sub.sections|
      invariant 0 <= j <= |sub.sections|
      invariant Outcome(st', events') ==
        Pass(v, st0, done + SectionJobs(sub.webhook, sub.sections[..j], course), visible)
    {
      var section := sub.sections[j];
      ghost var sofar := SectionJobs(sub.webhook, sub.sections[..j], course);
      SectionJobsExtend(sub.webhook, sub.sections, j, course);
      if course.None? || section.course == course.value {
        var job := Job(sub.webhook, section);
        PassAppend(v, st0, done + sofar, job, visible);
        assert done + (sofar + [job]) == (done + sofar) + [job];
        var out := Step(v, st', job, visible);
        assert Pass(v, st0, (done + sofar) + [job], visible) == Outcome(out.states, events' + out.events);
        st', events' := out.states, events' + out.events;
      } else {
        assert sofar + [] == sofar;
      }
      j := j + 1;
    }
    assert sub.sections[..j] == sub.sections;
  }

  /** The outer loop over the subscribers, skipping those past their stop time. */
  method RunPass(v: Version, data: seq<Subscriber>, stopTimes: map<string, int>, now: int, course: Option<string>,
                 st0: States, visible: map<string, int>)
    returns (st: States, events: seq<Event>)
    ensures Outcome(st, events) == Pass(v, st0, Jobs(data, stopTimes, now, course), visible)
  {
    st, events := st0, [];
    var i := 0;
    while i < |data|
      invariant 0 <= i <= |data|
      invariant Outcome(st, events) == Pass(v, st0, Jobs(data[..i], stopTimes, now, course), visible)
    {
      var sub := data[i];
      assert data[..i + 1][..i] == data[..i];
      assert Jobs(data[..i + 1], stopTimes, now, course) ==
        Jobs(data[..i], stopTimes, now, course) +
        (if Expired(stopTimes, sub.webhook, now) then [] else SectionJobs(sub.webhook, sub.sections, course));
      if !Expired(stopTimes, sub.webhook, now) {
        st, events := PassSubscriber(v, st0, Jobs(data[..i], stopTimes, now, course), st, events, sub, course, visible);
      } else {
        assert Jobs(data[..i + 1], stopTimes, now, course) == Jobs(data[..i], stopTimes, now, course);
      }
      i := i + 1;
    }
    assert data[..i] == data;
  }
}
