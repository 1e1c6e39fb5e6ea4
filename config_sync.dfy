/**
 * What the backend monitor makes of the store's `/users/` and `/settings/`
 * answers (`_load_config`, `_load_refresh_settings`, `_get_all_courses`).  The HTTP
 * calls are abstracted: an answer is `Some(payload)` for a 200 response and `None`
 * for any other status or a raised exception.  Stop times arrive already parsed to
 * integer instants.
 */
module ConfigSync {
  import opened Wrappers
  import opened Decision
  import Store

  datatype CourseRecord = CourseRecord(professor: string, courseName: string, crn: string, lastSeatCount: Option<int>)

  /** One user of the `/users/` answer; `stopTime` is None when the field is empty. */
  datatype UserRecord = UserRecord(webhook: string, stopTime: Option<int>, courses: seq<CourseRecord>)

  datatype SettingsRecord = SettingsRecord(minRefresh: real, maxRefresh: real)

  /** `DEFAULT_REFRESH_INTERVAL_RANGE`, in seconds. */
  const DefaultRefreshInterval: (real, real) := (30.0, 40.0)

  /** `_load_refresh_settings`: the store's bounds, or the default on any failure. */
  function RefreshInterval(answer: Option<SettingsRecord>): (r: (real, real))
    ensures answer.None? ==> r == DefaultRefreshInterval
    ensures answer.Some? ==> r == (answer.value.minRefresh, answer.value.maxRefresh)
  {
    match answer
    case None => DefaultRefreshInterval
    case Some(s) => (s.minRefresh, s.maxRefresh)
  }

  /** The bounds read from a `/settings/` body; a missing key raises, and the caller falls back. */
  function SettingsAnswer(body: Store.Json): Option<SettingsRecord>
  {
    var lo, hi := Store.RealField(body, "min_refresh_interval"), Store.RealField(body, "max_refresh_interval");
    if lo.Some? && hi.Some? then Some(SettingsRecord(lo.value, hi.value)) else None
  }

  /**
   * Read from the store, the interval is the stored row's bounds, so it is
   * ordered whenever the row is (which `init_db` and `update_settings` keep); the
   * fallback range is the store's default row.
   */
  lemma RefreshIntervalFromStore(row: Store.SettingsRow)
    ensures RefreshInterval(SettingsAnswer(Store.SettingsToDict(row))) == (row.minRefresh, row.maxRefresh)
    ensures row.minRefresh <= row.maxRefresh ==>
      RefreshInterval(SettingsAnswer(Store.SettingsToDict(row))).0 <= RefreshInterval(SettingsAnswer(Store.SettingsToDict(row))).1
    ensures RefreshInterval(None) == (Store.DefaultMinRefresh, Store.DefaultMaxRefresh)
  {
    Store.SettingsDictRoundTrip(row);
  }

  function ToSection(c: CourseRecord): Section
  {
    Section(c.professor, c.courseName, c.crn, c.lastSeatCount)
  }

  /** The `courses` list `_load_config` builds for one user, in order. */
  function ToSections(cs: seq<CourseRecord>): (r: seq<Section>)
    ensures |r| == |cs|
  {
    if cs == [] then [] else ToSections(cs[..|cs| - 1]) + [ToSection(cs[|cs| - 1])]
  }

  /** Each course record becomes the section at the same position. */
  lemma {:induction false} ToSectionsEach(cs: seq<CourseRecord>)
    ensures forall i :: 0 <= i < |cs| ==> ToSections(cs)[i] == ToSection(cs[i])
  {
    if cs != [] {
      ToSectionsEach(cs[..|cs| - 1]);
    }
  }

  // ---- the config as a Python dict keyed by webhook ----

  function IndexOf(config: seq<Subscriber>, webhook: string): (r: Option<nat>)
    ensures r.Some? ==> r.value < |config| && config[r.value].webhook == webhook
    ensures r.None? ==> forall i :: 0 <= i < |config| ==> config[i].webhook != webhook
  {
    if config == [] then None
    else if config[0].webhook == webhook then Some(0)
    else match IndexOf(config[1..], webhook)
      case None => None
      case Some(i) => Some(i + 1)
  }

  /** `config[webhook]`, or None when absent. */
  function Lookup(config: seq<Subscriber>, webhook: string): Option<seq<Section>>
  {
    match IndexOf(config, webhook)
    case None => None
    case Some(i) => Some(config[i].sections)
  }

  predicate DistinctKeys(config: seq<Subscriber>)
  {
    forall i, j :: 0 <= i < j < |config| ==> config[i].webhook != config[j].webhook
  }

  /** `config[webhook] = sections`: replace in place, or append a new key. */
  function Put(config: seq<Subscriber>, webhook: string, sections: seq<Section>): seq<Subscriber>
  {
    match IndexOf(config, webhook)
    case None => config + [Subscriber(webhook, sections)]
    case Some(i) => config[i := Subscriber(webhook, sections)]
  }

  lemma PutIsDictAssignment(config: seq<Subscriber>, webhook: string, sections: seq<Section>)
    requires DistinctKeys(config)
    ensures DistinctKeys(Put(config, webhook, sections))
    ensures Lookup(Put(config, webhook, sections), webhook) == Some(sections)
    ensures forall w :: w != webhook ==> Lookup(Put(config, webhook, sections), w) == Lookup(config, w)
  {
    var r := Put(config, webhook, sections);
    forall w ensures IndexOf(r, w) == (if w == webhook && IndexOf(config, w).None? then Some(|config|) else IndexOf(config, w)) {
      IndexOfDistinct(r, w);
      IndexOfDistinct(config, w);
    }
  }

  lemma IndexOfDistinct(config: seq<Subscriber>, webhook: string)
    requires DistinctKeys(config)
    ensures forall i :: 0 <= i < |config| && config[i].webhook == webhook ==> IndexOf(config, webhook) == Some(i)
  {
    forall i | 0 <= i < |config| && config[i].webhook == webhook ensures IndexOf(config, webhook) == Some(i) {
      var r := IndexOf(config, webhook);
    }
  }

  /** The config `_load_config` returns for a successful `/users/` answer. */
  function Reshape(users: seq<UserRecord>): seq<Subscriber>
  {
    if users == [] then []
    else
      var last := users[|users| - 1];
      var config := Reshape(users[..|users| - 1]);
      if last.courses != [] then Put(config, last.webhook, ToSections(last.courses)) else config
  }

  predicate DistinctWebhooks(users: seq<UserRecord>)
  {
    forall i, j :: 0 <= i < j < |users| ==> users[i].webhook != users[j].webhook
  }

  /**
   * The reshaped config is a dict: one entry per webhook, holding the user's courses
   * in order; users without courses get no entry (webhooks are unique in the store).
   */
  lemma {:induction false} ReshapeEntries(users: seq<UserRecord>)
    requires DistinctWebhooks(users)
    ensures DistinctKeys(Reshape(users))
    ensures forall i :: 0 <= i < |users| ==>
      Lookup(Reshape(users), users[i].webhook) ==
        (if users[i].courses == [] then None else Some(ToSections(users[i].courses)))
    ensures forall w :: (forall i :: 0 <= i < |users| ==> users[i].webhook != w) ==> Lookup(Reshape(users), w) == None
  {
    if users != [] {
      var init := users[..|users| - 1];
      var last := users[|users| - 1];
      ReshapeEntries(init);
      var config := Reshape(init);
      if last.courses != [] {
        PutIsDictAssignment(config, last.webhook, ToSections(last.courses));
      }
      forall i | 0 <= i < |users| - 1 ensures users[i] == init[i] && users[i].webhook != last.webhook { }
    }
  }

  /** `user_stop_times` after `_load_config` walked the users. */
  function StopTimesAfter(stopTimes: map<string, int>, users: seq<UserRecord>): map<string, int>
  {
    if users == [] then stopTimes
    else
      var last := users[|users| - 1];
      var m := StopTimesAfter(stopTimes, users[..|users| - 1]);
      match last.stopTime
      case Some(t) => m[last.webhook := t]
      case None => m - {last.webhook}
  }

  /** Each listed user's stop time is set, or cleared when empty; others keep theirs. */
  lemma {:induction false} StopTimesAfterEntries(stopTimes: map<string, int>, users: seq<UserRecord>)
    requires DistinctWebhooks(users)
    ensures forall i :: 0 <= i < |users| ==>
      (users[i].webhook in StopTimesAfter(stopTimes, users) <==> users[i].stopTime.Some?) &&
      (users[i].stopTime.Some? ==> StopTimesAfter(stopTimes, users)[users[i].webhook] == users[i].stopTime.value)
    ensures forall w :: (forall i :: 0 <= i < |users| ==> users[i].webhook != w) ==>
      (w in StopTimesAfter(stopTimes, users) <==> w in stopTimes) &&
      (w in stopTimes ==> StopTimesAfter(stopTimes, users)[w] == stopTimes[w])
  {
    if users != [] {
      var init := users[..|users| - 1];
      StopTimesAfterEntries(stopTimes, init);
      forall i | 0 <= i < |users| - 1 ensures users[i] == init[i] && users[i].webhook != users[|users| - 1].webhook { }
    }
  }

  /** The config `_load_config` returns: `{}` when the answer failed. */
  function ConfigAfter(answer: Option<seq<UserRecord>>): seq<Subscriber>
  {
    match answer
    case None => []
    case Some(users) => Reshape(users)
  }

  /** `user_stop_times` after `_load_config`: untouched when the answer failed. */
  function StopTimesAfterLoad(stopTimes: map<string, int>, answer: Option<seq<UserRecord>>): map<string, int>
  {
    match answer
    case None => stopTimes
    case Some(users) => StopTimesAfter(stopTimes, users)
  }

  // ---- `_get_all_courses` ----

  predicate Subscribes(s: Subscriber, course: string)
  {
    exists k :: 0 <= k < |s.sections| && s.sections[k].course == course
  }

  /** The course names of every subscriber that has not expired. */
  function ActiveCourses(subs: seq<Subscriber>, stopTimes: map<string, int>, now: int): set<string>
  {
    if subs == [] then {}
    else
      var last := subs[|subs| - 1];
      ActiveCourses(subs[..|subs| - 1], stopTimes, now) +
      (if Expired(stopTimes, last.webhook, now) then {} else set k | 0 <= k < |last.sections| :: last.sections[k].course)
  }

  /** A course is active exactly when some subscriber not past its stop time follows a section of it. */
  lemma {:induction false} ActiveCoursesMembers(subs: seq<Subscriber>, stopTimes: map<string, int>, now: int)
    ensures forall c :: c in ActiveCourses(subs, stopTimes, now) <==>
      exists i :: 0 <= i < |subs| && !Expired(stopTimes, subs[i].webhook, now) && Subscribes(subs[i], c)
  {
    if subs != [] {
      var init := subs[..|subs| - 1];
      ActiveCoursesMembers(init, stopTimes, now);
      assert forall i :: 0 <= i < |init| ==> init[i] == subs[i];
    }
  }
}
