# HowdySeek, modelled in Dafny

HowdySeek watches the course sections of Texas A&M's schedule builder. It keeps
one browser tab per course that some subscriber follows. On every cycle it reads
each tab's section table and sends a Discord notification to every subscriber
whose section's open-seat count changed. The repository holds two monitors:

- the current one, in `howdyseek-backend/main.py`, which reads its subscribers
  from a small REST store;
- an older one, in the root `main.py`, which reads a JSON config file.

It also holds the store itself (`howdyseek-backend/api.py` and `models.py`).

This project models:

- **The seat decision of `check_sections`** (`decision.dfy`, `notifier.dfy`).
  One pass walks the subscribed sections in config order. Each section is
  compared with the course's CRN → seats map (`section_states`). The pass
  emits notifications and, in the backend, seat-count write-backs.
  - For each version, lemmas state when a step notifies (exactly when the
    listed count differs from the known one), what its title says, and when
    it writes the count back.
  - The loop is a method proved to compute the pass function.
  - Further lemmas are about the pass: it settles every visited CRN, it
    notifies at most once per CRN, CRNs nobody visits keep their state, and
    it writes back every visited pair. An expired subscriber is never
    addressed.
- **Reading the section table** (`extraction.dfy`).
  - The wait loop (`has_no_sections` is its exit) becomes a function over a
    finite list of poll outcomes.
  - The stride-6 extraction is proved to map the CRN at cell 6k to the
    integer at cell 6k+3, with the last group of a repeated CRN winning. It
    fails exactly when some seat cell is missing or is not an integer.
- **String helpers** (`text.dfy`).
  - Python's `in` and `replace(p, "")`, used by `redirect_if_invalid`.
  - `split('/')[-1]`, the URL id, and `split("\n")[0]`.
  - The `(\w+ \d+)` course-label match.
  - `int()` and `f"{n}"` on integers.
- **The backend's config reload** (`config_sync.dfy`).
  - `_load_config` reshapes the `/users/` answer into a webhook → sections
    dict and keeps the stop-time map current. It falls back to `{}` when the
    answer fails.
  - `_load_refresh_settings` falls back to the 30–40 s default.
  - `_get_all_courses` is the set of courses of live subscribers.
- **Tab bookkeeping and the backend monitor** (`scheduler.dfy`,
  `monitor_spec.dfy`, `monitor.dfy`).
  - The tab bookkeeping covers which row of the course list names a course
    and `create_tab_for_course`. It also covers `create_tabs`, with its
    first-tab branch, and `check_for_new_courses`.
  - `check_sections` and the window loop of `run` are modelled as functions
    of the monitor's state.
  - The class `Monitor.HowdySeek` has the monitor's own fields
    (`course_names`, `section_states`, `tab_links`, `monitored_courses`,
    `user_stop_times`, the config, and the `FIRST_TAB_CREATED` flag). Its
    methods are proved against those functions.
- **The legacy monitor** (`legacy.dfy`), as the class
  `LegacyMonitor.LegacyHowdySeek`. It has its own course collection, tab
  loop, `check_sections` and window loop, proved against their functions.
- **The store** (`store.dfy`).
  - The `users`, `courses` and `settings` tables and their constraints.
  - The `to_dict` projections, with round-trip lemmas.
  - `init_db`'s default settings row.
  - Every API handler except `get_users`, as methods of the class
    `Store.Database`. Each states the reply and the new tables for every
    branch.

The browser, HTTP, Discord and the clock are not modelled. Each operation takes
as parameters what it would have observed:

- the poll outcomes of a wait and the cell texts of the section table;
- the rows of a course list;
- what switching to a window found;
- the store's answers;
- the current instant, as an integer.

Notifications and seat-count PUTs are returned as a sequence of events.

### Behaviour of the code worth knowing

- **Notify on any change.** The backend notifies on every seat change of a
  CRN it has seen before, including a change between two non-zero counts
  (`howdyseek-backend/main.py:632`).
- **Failed reload empties the config.** A failed `/users/` answer makes
  `_load_config` return `{}` (`howdyseek-backend/main.py:109-111`,
  `146-149`). The next pass therefore notifies nobody.
- **Bad seat text aborts the check.** A seat cell that is not an integer, or
  is missing, aborts the whole extraction, and the check changes nothing
  (`howdyseek-backend/main.py:579-590`).
- **Shared state silences a second subscriber.** The section state is one map
  per course, shared by all subscribers, and it is updated after each
  (subscriber, section) pair. A second subscriber to the same CRN in the same
  pass therefore sees no change and is not notified. `Decision.SecondSubscriberSilent`
  states this.
- **`KNOWN_EMPTY_SECTIONS` is always empty.** Only the second wait loop can
  run, so only that one is modelled.
- **The legacy check reloads its config mid-check.** It has no course filter
  and re-reads the config file after the extraction. Every section of every
  webhook is then decided against the current tab's listing
  (`main.py:259-267`).
- **A legacy seat-change title is mis-encoded.** The legacy title carries the
  bytes `â†’` where the backend has `→` (`main.py:276`). It is kept as written.
- **A lost legacy window keeps its link.** In the legacy window loop a window
  that no longer exists is skipped and keeps its `tab_links` entry
  (`main.py:348-349`). The backend deletes the entry
  (`howdyseek-backend/main.py:718-721`).
- **Webhook clash on update gives a 500.** `update_user` does not check
  webhook uniqueness. A webhook another user already has fails the commit on
  the unique constraint (`howdyseek-backend/models.py:28`). The model answers
  500 and changes nothing.
- **Ids are SQLite rowids.** A new row's id is one more than the largest id
  in its table, or 1 when the table is empty. So the id of a deleted last row
  can be given again.

## Model

| member | source | states |
|---|---|---|
| `Text.RemoveAll` | howdyseek-backend/main.py:478-479 | removing the error marker never lengthens the URL |
| `Text.RemoveAllChangesIffContains` | howdyseek-backend/main.py:478-481 | `replace(marker, "")` changes the URL exactly when the marker occurs in it, and then shortens it by at least the marker's length |
| `Text.LastSegmentIsSuffix` | howdyseek-backend/main.py:503-504 | the URL id is the suffix after the last `/` (all of the URL when there is none) and contains no `/` |
| `Text.FirstSegment` | main.py:120-123 | the legacy course name is the prefix of the row text up to its first newline, and contains no newline |
| `Text.RunLength` | howdyseek-backend/main.py:344 | the word (or digit) run is the longest prefix made only of `\w` (or `\d`) characters |
| `Text.ParseCourseLabel` | howdyseek-backend/main.py:344-345 | a match is a prefix of the text of the shape `\w+ \d+`, not followed by another digit; the match fails only when no prefix has that shape |
| `Text.NoLabelWithoutSpace` | howdyseek-backend/main.py:344-345 | when the word run is not followed by a space, no prefix of the text matches `\w+ \d+` |
| `Text.NoLabelWithoutDigits` | howdyseek-backend/main.py:344-345 | when the space after the word run is not followed by a digit, no prefix matches `\w+ \d+` |
| `Text.NatToStringDigits` | howdyseek-backend/main.py:620 | the decimal text of a count is a run of digits whose value is the count |
| `Text.StripUnchanged` | howdyseek-backend/main.py:586 | `int()` strips nothing from a text that neither starts nor ends with a character Python counts as white space (its full `str.isspace()` set) |
| `Text.ParseIntOfIntToString` | howdyseek-backend/main.py:586 | `int()` reads back exactly the number that `f"{n}"` prints, negative numbers included |
| `Extraction.WaitStopsAtFirstDecisive` | howdyseek-backend/main.py:556-568 | the wait ends at the first poll where the cells appeared or the tab reads "Enabled (0 of 0)", and reports which |
| `Extraction.WaitGivesUpWithoutDecisive` | howdyseek-backend/main.py:556-571 | while no poll is decisive the loop keeps reloading and never succeeds |
| `Extraction.WaitForSections` | howdyseek-backend/main.py:556-576 | the `while not success` loop yields the wait outcome of its polls |
| `Extraction.StridePrefixFails` | howdyseek-backend/main.py:584-590 | the first k iterations raise exactly when one of their seat cells is missing or not an integer |
| `Extraction.StrideFailsIff` | howdyseek-backend/main.py:579-590 | the extraction aborts exactly when some group's seat cell at 6k+3 is missing or not an integer |
| `Extraction.StridePrefixSeats` | howdyseek-backend/main.py:584-587 | iterations that did not raise each read an integer seat count |
| `Extraction.StridePrefixKeys` | howdyseek-backend/main.py:584-587 | the map built so far has exactly the CRN cells 6j of the iterations run |
| `Extraction.StridePrefixLastWins` | howdyseek-backend/main.py:584-587 | a CRN not repeated later maps to the seat count of its own group |
| `Extraction.StrideContents` | howdyseek-backend/main.py:579-590 | on success, the CRNs are exactly the cells at 6k, every seat cell parsed, and each CRN holds the count of its last group |
| `Extraction.ExtractVisible` | howdyseek-backend/main.py:579-590 | the extraction loop builds `visible_sections`, or reports the caught exception |
| `Decision.ExpiryIsStrict` | howdyseek-backend/main.py:163-175 | a subscriber without a stop time never expires; one with a stop time expires strictly after it, not at it |
| `Decision.TitleTextDistinguishes` | howdyseek-backend/main.py:620-659 | the three notification titles (and the legacy ones of main.py:276, 298) are told apart by their text, and a first-sight title names its count |
| `Decision.StepNotifiesIff` | howdyseek-backend/main.py:606-664 | a listed CRN is notified exactly when its listed count differs from the known one (the tracked count, else the store's last count, nothing known counting as different); a CRN that left the listing exactly when it was tracked with seats open; the same holds for the legacy step (main.py:266-301), which knows only the tracked count |
| `Decision.StepTitle` | howdyseek-backend/main.py:614-659 | a step's notification goes to its subscriber about its section; "Section Full" exactly when the CRN left the listing, "Seat Change: p → c" with p ≠ c exactly for a tracked listed CRN, otherwise the first-sight title with the listed count |
| `Decision.StepWritesBack` | howdyseek-backend/main.py:646-664 | a backend step writes back exactly when its CRN is listed or tracked: once, after any notification, with the count the state now holds; a legacy step never writes back |
| `Decision.SectionJobsSound` | howdyseek-backend/main.py:598-603 | the pairs for one subscriber are its own sections of the checked course, and all of them |
| `Decision.JobsSoundAndComplete` | howdyseek-backend/main.py:593-603 | the pass visits no expired subscriber and no other course, and visits every section of the course held by a live subscriber |
| `Decision.StepOtherCrn` | howdyseek-backend/main.py:598-664 | deciding one section leaves every other CRN's state alone and says nothing about it |
| `Decision.StepSameCrn` | howdyseek-backend/main.py:605-664 | after a step its CRN is settled at the listed count (0 when unlisted); a CRN already settled is not notified; at most one notification per step |
| `Decision.PassFrame` | howdyseek-backend/main.py:593-664 | a CRN that no visited section names keeps its state and gets no notification |
| `Decision.PassKeepsTracked` | howdyseek-backend/main.py:647-663 | a tracked CRN is never dropped from the course's state |
| `Decision.PassNeverTracksUnlisted` | howdyseek-backend/main.py:650-651 | a CRN neither listed nor tracked is never added to the state |
| `Decision.PassSettles` | howdyseek-backend/main.py:646-664 | after the pass every visited CRN that was listed or tracked holds the listed count, or 0 when unlisted |
| `Decision.PassNotifiesAtMostOnce` | howdyseek-backend/main.py:593-664 | one pass sends at most one notification per CRN, however many subscribers follow it; a CRN already settled is not notified |
| `Decision.SecondSubscriberSilent` | howdyseek-backend/main.py:606-647 | a second subscriber to a CRN decided just before is never notified, because the shared state already holds the count |
| `Decision.PassWritesBack` | howdyseek-backend/main.py:646-664 | every visited listed section gets its count written back, notified or not; a tracked section that vanished gets 0 |
| `Decision.StepEventsFromJob` | howdyseek-backend/main.py:605-664 | a step only addresses its own subscriber about its own CRN; legacy steps only notify |
| `Decision.PassEventsFromJobs` | howdyseek-backend/main.py:593-664 | every event of a pass goes to the webhook of a visited pair and names that pair's CRN |
| `Decision.BackendPassAddressees` | howdyseek-backend/main.py:593-603 | nothing goes to an expired subscriber, and every event names a CRN a live subscriber follows in the checked course |
| `Decision.JobsFromSubscribers` | howdyseek-backend/main.py:593-598 | every visited pair is a section of some subscriber of the config |
| `Decision.LegacyPassAddressees` | main.py:262-301 | the legacy pass only sends notifications, each to a webhook of the config about the CRN of one of its sections |
| `Notifier.PassSubscriber` | howdyseek-backend/main.py:598-664 | the inner loop over one subscriber's sections computes the pass over the pairs that pass the course filter |
| `Notifier.RunPass` | howdyseek-backend/main.py:593-664 | the nested loop computes the pass over every pair of the live subscribers, in config order |
| `ConfigSync.RefreshIntervalFromStore` | howdyseek-backend/main.py:88-101 | the interval read from the store's `/settings/` body is the stored row's bounds, so it is ordered whenever the row is; on failure it is the 30–40 s range, the same as `init_db`'s default row |
| `ConfigSync.ToSections` | howdyseek-backend/main.py:130-137 | one section per course record |
| `ConfigSync.ToSectionsEach` | howdyseek-backend/main.py:131-137 | each course record becomes the section at the same position, with its professor, course, CRN and stored seat count |
| `ConfigSync.IndexOf` | howdyseek-backend/main.py:140 | the position of a webhook's entry in the config dict, or none when absent |
| `ConfigSync.PutIsDictAssignment` | howdyseek-backend/main.py:140 | `config[webhook] = courses` keeps the keys distinct, sets that key and leaves every other key's value alone |
| `ConfigSync.ReshapeEntries` | howdyseek-backend/main.py:113-140 | the reshaped config has one entry per user with courses, holding them in order, none for users without courses, and none for unknown webhooks |
| `ConfigSync.StopTimesAfterEntries` | howdyseek-backend/main.py:117-128 | each user's stop time is set when given and cleared when empty; webhooks not in the answer keep theirs |
| `ConfigSync.ActiveCoursesMembers` | howdyseek-backend/main.py:151-161 | a course is collected exactly when some subscriber not past its stop time follows a section of it |
| `Scheduler.RowCourse` | howdyseek-backend/main.py:342-345 | the backend's course name is the `\w+ \d+` prefix of the row text, not followed by another digit, and there is none only when no prefix of the text has that shape; the legacy one is the row text up to its first newline (all of it when there is none) |
| `Scheduler.LocateFound` | howdyseek-backend/main.py:340-348 | a found row is the first naming the course, every earlier row having been read and naming another course |
| `Scheduler.LocateNotListed` | howdyseek-backend/main.py:340-371 | the course is reported missing exactly when every row was read and names another course |
| `Scheduler.LocateUnreadable` | howdyseek-backend/main.py:340-345 | otherwise the scan raised at an unreadable row, every earlier row having named another course |
| `Scheduler.FindCourseRow` | howdyseek-backend/main.py:340-371 | the loop over the course rows finds what the scan describes |
| `Scheduler.RedirectOnlyOnErrorPages` | howdyseek-backend/main.py:472-482 | a redirect happens exactly when the URL holds `INVALID_PAGE_STRING`; its target, with every occurrence removed, is shorter than the URL by at least the marker's length |
| `MonitorSpec.Designate` | howdyseek-backend/main.py:357-365 | clicking a row maps the landing URL's id to the course, records the tab's URL, adds the course to the monitored set, and keeps the registry coherent |
| `MonitorSpec.AttemptTabEffect` | howdyseek-backend/main.py:263-376 | an already monitored course is a no-op returning True; otherwise True exactly when its listing placed it; the monitored set grows by that course only then, and coherence holds |
| `MonitorSpec.AttemptTabRecordsLanding` | howdyseek-backend/main.py:357-362 | a placed course is recorded under the URL id and tab of the first row naming it |
| `MonitorSpec.AttemptAllCovers` | howdyseek-backend/main.py:434-436 | after the loop every course is monitored unless its listing could not place it; the monitored set only grows, and only by courses of the loop |
| `MonitorSpec.FilterMembers` | howdyseek-backend/main.py:456 | the courses to add are exactly the active courses not yet monitored |
| `MonitorSpec.EnumerationEmpty` | howdyseek-backend/main.py:383-387 | the course order is empty exactly when the course set is |
| `MonitorSpec.FirstTabEffect` | howdyseek-backend/main.py:389-430 | the first tab places the first course exactly when its listing shows it; a raise places nothing; otherwise the first tab is marked created |
| `MonitorSpec.CreateTabsCovers` | howdyseek-backend/main.py:378-436 | unless the first tab raised, every active course ends monitored or could not be placed; a raise leaves the monitored set unchanged; only active courses are added |
| `MonitorSpec.NewTabsCover` | howdyseek-backend/main.py:438-470 | after `check_for_new_courses`, unless it raised, every active course is monitored or could not be placed; the monitored set only grows, only by active courses not monitored before, and not at all on a raise; coherence holds |
| `MonitorSpec.CheckResultFrame` | howdyseek-backend/main.py:503-518 | an unknown URL id changes nothing; otherwise only that course's state is touched, and created empty when missing |
| `MonitorSpec.CheckResultAddressees` | howdyseek-backend/main.py:573-603 | nothing is sent unless the wait showed sections and every seat cell parsed, and nothing goes to an expired subscriber |
| `MonitorSpec.VisitOneProperties` | howdyseek-backend/main.py:694-726 | one window appends events, none to an expired subscriber; a closed window loses its link, a shown one has one; every other link keeps its URL, no link appears but the visited window's, and no course state is dropped |
| `MonitorSpec.VisitAllEvents` | howdyseek-backend/main.py:694-726 | over a sweep of the windows, events only accumulate and none reaches a subscriber past its stop time |
| `MonitorSpec.VisitAllKeeps` | howdyseek-backend/main.py:694-726 | no course's section state is dropped, a window shown on its last visit keeps a link, and a window never found closed keeps its link unchanged |
| `Monitor.HowdySeek.constructor` | howdyseek-backend/main.py:60-70 | empty registries, the first tab not created, and the config and stop times from the first `_load_config` |
| `Monitor.HowdySeek.RecordStopTime` | howdyseek-backend/main.py:118-128 | one user's stop time is stored, or deleted when the user has none |
| `Monitor.HowdySeek.LoadConfig` | howdyseek-backend/main.py:103-149 | the loop builds the reshaped config and stop-time map; a failed answer gives `{}` and leaves stop times and settings as they were |
| `Monitor.HowdySeek.CoursesOf` | howdyseek-backend/main.py:446-453 | the nested loop collects the courses of live subscribers |
| `Monitor.HowdySeek.GetAllCourses` | howdyseek-backend/main.py:151-161 | `_get_all_courses` gives the courses of live subscribers of the current config |
| `Monitor.HowdySeek.DesignateTab` | howdyseek-backend/main.py:357-365 | the registry update of a clicked row |
| `Monitor.HowdySeek.CreateTabForCourse` | howdyseek-backend/main.py:263-376 | `create_tab_for_course` does the attempt the spec function describes and keeps the registry coherent |
| `Monitor.HowdySeek.SetUpFirstTab` | howdyseek-backend/main.py:389-430 | the first-tab branch of `create_tabs` |
| `Monitor.HowdySeek.OpenTabs` | howdyseek-backend/main.py:434-436 | the loop tries every remaining course in order |
| `Monitor.HowdySeek.CreateTabs` | howdyseek-backend/main.py:378-436 | `create_tabs` over the active courses: nothing when there are none, the first tab, then the rest |
| `Monitor.HowdySeek.OpenNewTabs` | howdyseek-backend/main.py:466-468 | one attempt per course to add, in order |
| `Monitor.HowdySeek.CheckForNewCourses` | howdyseek-backend/main.py:438-470 | the config is replaced by the reload; the answer is True iff some active course was not monitored; tabs open only for those courses |
| `Monitor.HowdySeek.CheckSections` | howdyseek-backend/main.py:497-664 | `check_sections` gives the new section states and the notifications and write-backs the check function prescribes |
| `Monitor.HowdySeek.VisitWindows` | howdyseek-backend/main.py:694-726 | the window loop of `run`, with its per-window exception handling |
| `Monitor.HowdySeek.RunCycle` | howdyseek-backend/main.py:689-729 | one cycle stores the reloaded config and stop times, grows the monitored set only by active courses, and gives the tabs `check_for_new_courses` prescribes; after a raise nothing is checked or sent, otherwise the window sweep gives the new links, states and events; the registry stays coherent, nothing goes to an expired subscriber, and every active course is monitored unless its listing could not place it |
| `Monitor.SectionsOf` | howdyseek-backend/main.py:130-137 | the loop builds the user's section list |
| `LegacyMonitor.SectionCoursesMembers` | main.py:73-74 | a course is collected from a webhook exactly when one of its sections names it |
| `LegacyMonitor.ConfiguredCoursesMembers` | main.py:70-74 | a course is collected exactly when some section of some webhook names it, stop times not being known to this version |
| `LegacyMonitor.CollectCourses` | main.py:70-74 | the nested loop collects the configured courses |
| `LegacyMonitor.PlaceAllEffect` | main.py:76-136 | the tab loop raises exactly when some course list failed to load; URL ids are only added, each naming a course of the loop; without a raise every listed course's landing URL id is recorded |
| `LegacyMonitor.PlaceAllStopsAtCrash` | main.py:77-116 | after a wait raises, no later course is visited |
| `LegacyMonitor.LegacyCheckFrame` | main.py:169-259 | an unknown tab changes nothing; only the tab's course state is touched; the config changes only by a successful reload; nothing is sent unless wait, extraction and reload all succeeded |
| `LegacyMonitor.LegacyCheckAddressees` | main.py:259-301 | only notifications are sent, each to a webhook of the reloaded config about the CRN of one of its sections |
| `LegacyMonitor.LegacyVisitOneProperties` | main.py:327-354 | one window appends only notifications; recorded links are never changed or dropped; a shown window has a link; course states are kept |
| `LegacyMonitor.LegacyVisitAllProperties` | main.py:326-354 | the same for a whole sweep of windows |
| `LegacyMonitor.LegacyHowdySeek.constructor` | main.py:33-43 | the config as read, with empty registries |
| `LegacyMonitor.LegacyHowdySeek.CreateTabs` | main.py:68-136 | `create_tabs` records the URL ids the tab loop describes and reports a raise |
| `LegacyMonitor.LegacyHowdySeek.CheckSections` | main.py:163-301 | the legacy `check_sections` gives the states, config and notifications the check function prescribes |
| `LegacyMonitor.LegacyHowdySeek.VisitWindows` | main.py:327-354 | the legacy window loop |
| `LegacyMonitor.LegacyHowdySeek.Run` | main.py:322-357 | `run` records the tab loop's URL ids; it raises iff some course list failed to load, and then changes nothing else and sends nothing; otherwise the window sweep gives the new links, states, config and events, only notifications are sent, and every shown window keeps a link |
| `Store.CourseDictRoundTrip` | howdyseek-backend/models.py:56-62 | `Course.to_dict` has exactly the keys id, course_name, professor and crn, with no user_id, and reading it back gives the row |
| `Store.CourseDictsRoundTrip` | howdyseek-backend/models.py:38 | the list of course dicts reads back as the courses in order |
| `Store.UserDictRoundTrip` | howdyseek-backend/models.py:33-39 | `User.to_dict` has the keys id, name, webhook_url and courses, and reads back as the user with its courses in order |
| `Store.SettingsDictRoundTrip` | howdyseek-backend/models.py:15-20 | `Settings.to_dict` has the keys id, min and max refresh interval, and reads back as the row |
| `Store.UserIndex` | howdyseek-backend/api.py:89 | the query by id finds a user with that id, or none exists |
| `Store.CourseIndex` | howdyseek-backend/api.py:183 | the query by id finds a course with that id, or none exists |
| `Store.CoursesOfMembers` | howdyseek-backend/models.py:31 | `user.courses` holds exactly the course rows whose user_id is the user's |
| `Store.NextIdsFresh` | howdyseek-backend/models.py:26 | a new row's id is larger than every id in its table, so primary keys stay unique |
| `Store.DeleteUserKeepsValid` | howdyseek-backend/models.py:28-31 | deleting a user together with its courses keeps ids ordered, webhooks unique, (user, CRN) unique, and every course owned by an existing user |
| `Store.DeleteCourseKeepsValid` | howdyseek-backend/api.py:180-189 | deleting one course keeps every course constraint |
| `Store.PatchUser` | howdyseek-backend/api.py:118-122 | only the fields given as non-None are replaced; the id never changes |
| `Store.PatchSettingsCases` | howdyseek-backend/api.py:224-249 | the three rejections happen exactly in their cases, each with its message; otherwise only the given bounds change, and an empty update changes nothing |
| `Store.PatchSettingsKeepsOrder` | howdyseek-backend/api.py:228-253 | a successful update keeps min ≤ max when the stored row had it |
| `Store.Database.constructor` | howdyseek-backend/models.py:65-68 | freshly created tables are empty and satisfy every constraint |
| `Store.Database.InitDb` | howdyseek-backend/models.py:65-80 | a default row (30.0, 40.0) with min ≤ max is inserted only when the table is empty; afterwards there is exactly one row |
| `Store.Database.GetUser` | howdyseek-backend/api.py:86-92 | 404 "User not found" exactly when no user has the id; otherwise that user with its courses |
| `Store.Database.GetUserCourses` | howdyseek-backend/api.py:141-147 | 404 exactly for an unknown user; otherwise exactly the courses that user owns |
| `Store.Database.CreateUser` | howdyseek-backend/api.py:95-108 | a registered webhook gets 400 and nothing changes; otherwise exactly one user is added, with a fresh id, and webhooks stay unique |
| `Store.Database.UpdateUser` | howdyseek-backend/api.py:111-126 | 404 for an unknown user; a webhook another user has fails the commit with nothing changed; otherwise only the given fields of that user change |
| `Store.Database.DeleteUser` | howdyseek-backend/api.py:129-138 | 404 for an unknown user; otherwise that user and exactly its courses are removed, the rest kept in order |
| `Store.Database.CreateCourse` | howdyseek-backend/api.py:150-177 | 404 for an unknown user, 400 for a CRN that user already has; otherwise exactly one course is added, so (user, CRN) stays unique |
| `Store.Database.DeleteCourse` | howdyseek-backend/api.py:180-189 | 404 for an unknown course id; otherwise only that row is removed |
| `Store.Database.GetSettings` | howdyseek-backend/api.py:207-214 | 404 only when there is no settings row; otherwise the first row |
| `Store.Database.UpdateSettings` | howdyseek-backend/api.py:217-253 | 404 without a row; 400 with nothing changed when the bounds would cross; otherwise the patched row is stored and returned |

## Left out

- RunLength (`Text.RunLength`, with `Text.IsWordChar` and `Text.IsDigit`):
  Python's `\w` and `\d` on `str` also match non-ASCII letters and digits.
  The model matches ASCII letters, digits and `_` only, so a row label such as
  `ÉTUD 101` is not read as a label here.
- ParseCourseLabel (`Text.ParseCourseLabel`): the match is exact over the ASCII
  classes above, and misses labels that use non-ASCII word characters or digits.
- ParseInt (`Text.ParseInt`): `int()` also accepts non-ASCII decimal digits,
  such as Arabic-Indic digits; the model reads ASCII digits only. White space
  is Python's full set.
- **Browser control.** Selenium is out of scope: term selection, the
  `while "options" in current_url` wait, the `page_source` checks, the
  redirect and refresh calls of `run`, and switching windows. Their outcomes
  are parameters. The redirect target is modelled (`Scheduler.RedirectTarget`),
  but the navigation itself changes no modelled state.
- **Unbounded waits.** A wait that never becomes decisive reloads forever in
  the source. The model's polls are finite and end in `GaveUp`, which skips
  the check as "no sections" does.
- **`has_no_sections`.** It is the predicate `Extraction.HasNoSections` on the
  "Enabled" tab's text. Whether that element exists is part of the poll
  outcome.
- **HTTP and Discord.**
  - `requests` calls and `_send_notification` are replaced by returned events.
  - A `requests.post` that raises in the middle of a pass is not modelled.
    It would abort the rest of the pass with the state updated so far.
  - `_update_course_seat_count`'s lookup through `/users/` is replaced by a
    `WriteBack` event.
- **Time.** One `now` is used for a whole pass; the source reads the clock for
  every subscriber. `datetime.fromisoformat` and time-zone normalisation are
  left out, and stop times are integer instants.
- **Concurrency and process control.** Threads, signals, `termination_event`,
  the Discord bot, and the random sleep between cycles over real intervals.
- **Unexpected exceptions.** Only the raises the model names are modelled:
  - a failed wait while setting up a tab;
  - an unreadable course label;
  - a bad seat cell;
  - a failed config re-read in the legacy check;
  - a closed window.

  Other WebDriver exceptions that `run` swallows are not modelled; the source
  would keep the state as it was at that point.
- **Stray tabs.** Windows that are not course tabs take part only as
  `Offscreen` or as pages with an unknown URL id.
- **Legacy start-up.** A config file that cannot be read raises out of
  `__init__` and ends the program, so the legacy constructor takes the config
  already read.
- **Legacy first tab.** Selecting the term in the legacy first tab is treated
  like loading the list in any later tab.
- **`get_users`.** The `/users/` listing is not modelled as a handler. The
  backend monitor's view of it is the `UserRecord` answer in `ConfigSync`.
  That answer carries `stop_time` and `last_seat_count`, which the shown
  store has no columns for; the two are not reconciled.
- **Column limits.** The `String(100)`, `String(255)` and `String(20)` length
  limits are not enforced. NaN and infinite floats in the settings are not
  modelled; the bounds are reals.
- **`user.courses` order.** It is taken to be table (row-id) order.
- **Serialisation.** FastAPI's response models and JSON serialisation are not
  modelled; handlers return typed replies. The `to_dict` methods are modelled
  separately as JSON values.
- `Store.Database.UpdateUser`: the 500 answer stands for the integrity error
  the commit raises. The framework's exact error body is not modelled.
