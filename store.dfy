/**
 * The REST backend's store: the `users`, `courses` and `settings` tables with
 * their constraints, the `to_dict` projections, `init_db`'s default settings
 * row, and the API handlers that read and change the tables.  Tables are kept
 * in row-id order; a new row gets SQLite's next rowid (one more than the
 * largest id in the table, 1 when it is empty).
 */
module Store {
  import opened Wrappers

  datatype UserRow = UserRow(id: int, name: string, webhookUrl: string)

  datatype CourseRow = CourseRow(id: int, courseName: string, professor: string, crn: string, userId: int)

  datatype SettingsRow = SettingsRow(id: int, minRefresh: real, maxRefresh: real)

  /** The column defaults, also what `init_db` inserts. */
  const DefaultMinRefresh: real := 30.0
  const DefaultMaxRefresh: real := 40.0

  // ---- the `to_dict` projections ----

  datatype Json =
    | JNull
    | JInt(n: int)
    | JReal(x: real)
    | JStr(s: string)
    | JArray(items: seq<Json>)
    | JObject(fields: seq<(string, Json)>)

  function KeysOf(fields: seq<(string, Json)>): seq<string>
  {
    seq(|fields|, i requires 0 <= i < |fields| => fields[i].0)
  }

  /** The value of the first field named `key` from position `i` on, as a dict lookup finds it. */
  function FieldFrom(fields: seq<(string, Json)>, key: string, i: nat): Option<Json>
    decreases |fields| - i
  {
    if i >= |fields| then None
    else if fields[i].0 == key then Some(fields[i].1)
    else FieldFrom(fields, key, i + 1)
  }

  /** In a dict whose keys are distinct, looking a key up finds its own value. */
  lemma {:induction false} FieldOfDistinct(fields: seq<(string, Json)>, i: nat, n: nat)
    requires n <= i < |fields|
    requires forall a, b :: 0 <= a < b < |fields| ==> fields[a].0 != fields[b].0
    ensures FieldFrom(fields, fields[i].0, n) == Some(fields[i].1)
    decreases i - n
  {
    if n < i {
      FieldOfDistinct(fields, i, n + 1);
    }
  }

  function Field(j: Json, key: string): Option<Json>
  {
    if j.JObject? then FieldFrom(j.fields, key, 0) else None
  }

  function IntField(j: Json, key: string): Option<int>
  {
    match Field(j, key)
    case Some(JInt(n)) => Some(n)
    case _ => None
  }

  function StrField(j: Json, key: string): Option<string>
  {
    match Field(j, key)
    case Some(JStr(t)) => Some(t)
    case _ => None
  }

  function RealField(j: Json, key: string): Option<real>
  {
    match Field(j, key)
    case Some(JReal(x)) => Some(x)
    case _ => None
  }

  function ArrayField(j: Json, key: string): Option<seq<Json>>
  {
    match Field(j, key)
    case Some(JArray(items)) => Some(items)
    case _ => None
  }

  /** `Course.to_dict`. */
  function CourseToDict(c: CourseRow): Json
  {
    JObject([("id", JInt(c.id)), ("course_name", JStr(c.courseName)), ("professor", JStr(c.professor)),
             ("crn", JStr(c.crn))])
  }

  /** Reading a course dict back; the owner is not in the dict, so it is supplied. */
  function CourseFromDict(j: Json, userId: int): Option<CourseRow>
  {
    var id, name, prof, crn := IntField(j, "id"), StrField(j, "course_name"), StrField(j, "professor"), StrField(j, "crn");
    if id.Some? && name.Some? && prof.Some? && crn.Some? then Some(CourseRow(id.value, name.value, prof.value, crn.value, userId))
    else None
  }

  /** The dict has exactly the four public columns, no `user_id`, and loses nothing else. */
  lemma CourseDictRoundTrip(c: CourseRow)
    ensures CourseToDict(c).JObject? && KeysOf(CourseToDict(c).fields) == ["id", "course_name", "professor", "crn"]
    ensures "user_id" !in KeysOf(CourseToDict(c).fields)
    ensures CourseFromDict(CourseToDict(c), c.userId) == Some(c)
  {
    var f := CourseToDict(c).fields;
    assert KeysOf(f) == ["id", "course_name", "professor", "crn"];
    FieldOfDistinct(f, 1, 0);
    FieldOfDistinct(f, 2, 0);
    FieldOfDistinct(f, 3, 0);
  }

  function CourseDicts(cs: seq<CourseRow>): seq<Json>
  {
    seq(|cs|, i requires 0 <= i < |cs| => CourseToDict(cs[i]))
  }

  /** `User.to_dict`, given the user's courses in relationship order. */
  function UserToDict(u: UserRow, cs: seq<CourseRow>): Json
  {
    JObject([("id", JInt(u.id)), ("name", JStr(u.name)), ("webhook_url", JStr(u.webhookUrl)),
             ("courses", JArray(CourseDicts(cs)))])
  }

  function CoursesFromDicts(items: seq<Json>, userId: int): Option<seq<CourseRow>>
  {
    if items == [] then Some([])
    else match (CoursesFromDicts(items[..|items| - 1], userId), CourseFromDict(items[|items| - 1], userId))
      case (Some(cs), Some(c)) => Some(cs + [c])
      case _ => None
  }

  function UserFromDict(j: Json): Option<(UserRow, seq<CourseRow>)>
  {
    var id, name, hook, items := IntField(j, "id"), StrField(j, "name"), StrField(j, "webhook_url"), ArrayField(j, "courses");
    if id.Some? && name.Some? && hook.Some? && items.Some? then
      match CoursesFromDicts(items.value, id.value)
      case Some(cs) => Some((UserRow(id.value, name.value, hook.value), cs))
      case None => None
    else None
  }

  lemma {:induction false} CourseDictsRoundTrip(cs: seq<CourseRow>, userId: int)
    requires forall k :: 0 <= k < |cs| ==> cs[k].userId == userId
    ensures CoursesFromDicts(CourseDicts(cs), userId) == Some(cs)
  {
    if cs != [] {
      var init := cs[..|cs| - 1];
      CourseDictsRoundTrip(init, userId);
      assert CourseDicts(cs)[..|cs| - 1] == CourseDicts(init);
      CourseDictRoundTrip(cs[|cs| - 1]);
      assert init + [cs[|cs| - 1]] == cs;
    }
  }

  /** The user dict carries the user's columns and each of its courses' dicts, in order. */
  lemma UserDictRoundTrip(u: UserRow, cs: seq<CourseRow>)
    requires forall k :: 0 <= k < |cs| ==> cs[k].userId == u.id
    ensures KeysOf(UserToDict(u, cs).fields) == ["id", "name", "webhook_url", "courses"]
    ensures UserFromDict(UserToDict(u, cs)) == Some((u, cs))
  {
    var f := UserToDict(u, cs).fields;
    assert KeysOf(f) == ["id", "name", "webhook_url", "courses"];
    FieldOfDistinct(f, 1, 0);
    FieldOfDistinct(f, 2, 0);
    FieldOfDistinct(f, 3, 0);
    CourseDictsRoundTrip(cs, u.id);
  }

  /** `Settings.to_dict`. */
  function SettingsToDict(s: SettingsRow): Json
  {
    JObject([("id", JInt(s.id)), ("min_refresh_interval", JReal(s.minRefresh)),
             ("max_refresh_interval", JReal(s.maxRefresh))])
  }

  function SettingsFromDict(j: Json): Option<SettingsRow>
  {
    var id, lo, hi := IntField(j, "id"), RealField(j, "min_refresh_interval"), RealField(j, "max_refresh_interval");
    if id.Some? && lo.Some? && hi.Some? then Some(SettingsRow(id.value, lo.value, hi.value)) else None
  }

  lemma SettingsDictRoundTrip(s: SettingsRow)
    ensures KeysOf(SettingsToDict(s).fields) == ["id", "min_refresh_interval", "max_refresh_interval"]
    ensures SettingsFromDict(SettingsToDict(s)) == Some(s)
  {
    var f := SettingsToDict(s).fields;
    assert KeysOf(f) == ["id", "min_refresh_interval", "max_refresh_interval"];
    FieldOfDistinct(f, 1, 0);
    FieldOfDistinct(f, 2, 0);
  }

  // ---- table queries ----

  /** The rows `s` keeps that satisfy `p`, in table order (a DELETE's survivors). */
  function Keep<T>(s: seq<T>, p: T -> bool): seq<T>
  {
    if s == [] then []
    else Keep(s[..|s| - 1], p) + (if p(s[|s| - 1]) then [s[|s| - 1]] else [])
  }

  lemma {:induction false} KeepMembers<T>(s: seq<T>, p: T -> bool)
    ensures forall x :: x in Keep(s, p) <==> x in s && p(x)
  {
    if s != [] {
      KeepMembers(s[..|s| - 1], p);
      assert forall x :: x in s <==> x in s[..|s| - 1] || x == s[|s| - 1];
    }
  }

  lemma KeptIsMember<T>(s: seq<T>, p: T -> bool, x: T)
    requires x in Keep(s, p)
    ensures x in s && p(x)
  {
    KeepMembers(s, p);
  }

  /** Filtering keeps order: a relation between every earlier and later row still holds. */
  lemma {:induction false} KeepPairwise<T>(s: seq<T>, p: T -> bool, r: (T, T) -> bool)
    requires forall i, j :: 0 <= i < j < |s| ==> r(s[i], s[j])
    ensures forall i, j :: 0 <= i < j < |Keep(s, p)| ==> r(Keep(s, p)[i], Keep(s, p)[j])
  {
    if s != [] {
      var init := s[..|s| - 1];
      var last := s[|s| - 1];
      KeepPairwise(init, p, r);
      var k := Keep(s, p);
      assert k == Keep(init, p) + (if p(last) then [last] else []);
      assert forall i :: 0 <= i < |Keep(init, p)| ==> k[i] == Keep(init, p)[i];
      forall i, j | 0 <= i < j < |k|
        ensures r(k[i], k[j])
      {
        if j >= |Keep(init, p)| {
          assert k[j] == last;
          var a := k[i];
          assert a == Keep(init, p)[i];
          assert a in Keep(init, p);
          KeptIsMember(init, p, a);
          var m :| 0 <= m < |init| && init[m] == a;
          assert s[m] == a;
        }
      }
    }
  }

  function UserIds(users: seq<UserRow>): set<int>
  {
    set k | 0 <= k < |users| :: users[k].id
  }

  /** The position of the user with this id, if any. */
  function UserIndex(users: seq<UserRow>, id: int): (r: Option<nat>)
    ensures r.Some? ==> r.value < |users| && users[r.value].id == id
    ensures r.None? ==> id !in UserIds(users)
  {
    if users == [] then None
    else if users[|users| - 1].id == id then Some(|users| - 1)
    else
      var r := UserIndex(users[..|users| - 1], id);
      assert forall u :: u in users ==> u in users[..|users| - 1] || u == users[|users| - 1];
      r
  }

  /** The position of the course with this id, if any. */
  function CourseIndex(courses: seq<CourseRow>, id: int): (r: Option<nat>)
    ensures r.Some? ==> r.value < |courses| && courses[r.value].id == id
    ensures r.None? ==> forall k :: 0 <= k < |courses| ==> courses[k].id != id
  {
    if courses == [] then None
    else if courses[|courses| - 1].id == id then Some(|courses| - 1)
    else CourseIndex(courses[..|courses| - 1], id)
  }

  predicate WebhookTaken(users: seq<UserRow>, webhook: string)
  {
    exists k :: 0 <= k < |users| && users[k].webhookUrl == webhook
  }

  /** Another user than `id` already has the webhook the update asks for. */
  predicate WebhookClash(users: seq<UserRow>, id: int, webhook: Option<string>)
  {
    webhook.Some? && exists k :: 0 <= k < |users| && users[k].id != id && users[k].webhookUrl == webhook.value
  }

  predicate CrnTaken(courses: seq<CourseRow>, userId: int, crn: string)
  {
    exists k :: 0 <= k < |courses| && courses[k].userId == userId && courses[k].crn == crn
  }

  /** `user.courses`: the user's rows of the courses table, in table order. */
  function CoursesOf(courses: seq<CourseRow>, userId: int): seq<CourseRow>
  {
    Keep(courses, (c: CourseRow) => c.userId == userId)
  }

  lemma CoursesOfMembers(courses: seq<CourseRow>, userId: int)
    ensures forall c :: c in CoursesOf(courses, userId) <==> c in courses && c.userId == userId
  {
    KeepMembers(courses, (c: CourseRow) => c.userId == userId);
  }

  /** SQLite's next rowid for a table whose ids increase: one more than the last. */
  function NextUserId(users: seq<UserRow>): int
  {
    if users == [] then 1 else users[|users| - 1].id + 1
  }

  function NextCourseId(courses: seq<CourseRow>): int
  {
    if courses == [] then 1 else courses[|courses| - 1].id + 1
  }

  /** The users table after `DELETE` of user `id`. */
  function WithoutUser(users: seq<UserRow>, id: int): seq<UserRow>
  {
    Keep(users, (u: UserRow) => u.id != id)
  }

  /** The courses table after the cascade from deleting user `userId`. */
  function WithoutCoursesOf(courses: seq<CourseRow>, userId: int): seq<CourseRow>
  {
    Keep(courses, (c: CourseRow) => c.userId != userId)
  }

  /** The courses table after `DELETE` of course `id`. */
  function WithoutCourse(courses: seq<CourseRow>, id: int): seq<CourseRow>
  {
    Keep(courses, (c: CourseRow) => c.id != id)
  }

  lemma UserIdsAppend(users: seq<UserRow>, user: UserRow)
    ensures UserIds(users + [user]) == UserIds(users) + {user.id}
  {
    forall x | x in UserIds(users + [user])
      ensures x in UserIds(users) + {user.id}
    {
      var k :| 0 <= k < |users| + 1 && (users + [user])[k].id == x;
      if k < |users| {
        assert users[k].id == x;
      }
    }
    forall x | x in UserIds(users)
      ensures x in UserIds(users + [user])
    {
      var k :| 0 <= k < |users| && users[k].id == x;
      assert (users + [user])[k].id == x;
    }
    assert (users + [user])[|users|].id == user.id;
  }

  // ---- table constraints ----

  /** Ids increase in table order (so they are unique) and `webhook_url` is unique. */
  predicate UsersValid(users: seq<UserRow>)
  {
    forall i, j :: 0 <= i < j < |users| ==> users[i].id < users[j].id && users[i].webhookUrl != users[j].webhookUrl
  }

  /** Ids increase, every course belongs to an existing user, and no user has a CRN twice. */
  predicate CoursesValid(users: seq<UserRow>, courses: seq<CourseRow>)
  {
    (forall i, j :: 0 <= i < j < |courses| ==>
       courses[i].id < courses[j].id && (courses[i].userId == courses[j].userId ==> courses[i].crn != courses[j].crn)) &&
    (forall k :: 0 <= k < |courses| ==> courses[k].userId in UserIds(users))
  }

  /** A new row's id is larger than every id in its table. */
  lemma NextIdsFresh(users: seq<UserRow>, courses: seq<CourseRow>)
    requires UsersValid(users) && CoursesValid(users, courses)
    ensures forall k :: 0 <= k < |users| ==> users[k].id < NextUserId(users)
    ensures forall k :: 0 <= k < |courses| ==> courses[k].id < NextCourseId(courses)
  {
  }

  /** Deleting a user with its courses keeps every constraint. */
  lemma DeleteUserKeepsValid(users: seq<UserRow>, courses: seq<CourseRow>, userId: int)
    requires UsersValid(users) && CoursesValid(users, courses)
    ensures UsersValid(WithoutUser(users, userId)) && CoursesValid(WithoutUser(users, userId), WithoutCoursesOf(courses, userId))
  {
    var keepUser := (u: UserRow) => u.id != userId;
    var keepCourse := (c: CourseRow) => c.userId != userId;
    KeepMembers(users, keepUser);
    KeepMembers(courses, keepCourse);
    KeepPairwise(users, keepUser, (a: UserRow, b: UserRow) => a.id < b.id && a.webhookUrl != b.webhookUrl);
    KeepPairwise(courses, keepCourse,
      (a: CourseRow, b: CourseRow) => a.id < b.id && (a.userId == b.userId ==> a.crn != b.crn));
    var users' := WithoutUser(users, userId);
    var courses' := WithoutCoursesOf(courses, userId);
    forall k | 0 <= k < |courses'|
      ensures courses'[k].userId in UserIds(users')
    {
      var c := courses'[k];
      assert c in courses;
      var m :| 0 <= m < |courses| && courses[m] == c;
      var n :| 0 <= n < |users| && users[n].id == c.userId;
      assert users[n] in users';
      var n' :| 0 <= n' < |users'| && users'[n'] == users[n];
    }
  }

  /** Deleting one course keeps every constraint. */
  lemma DeleteCourseKeepsValid(users: seq<UserRow>, courses: seq<CourseRow>, courseId: int)
    requires CoursesValid(users, courses)
    ensures CoursesValid(users, WithoutCourse(courses, courseId))
  {
    var keep := (c: CourseRow) => c.id != courseId;
    KeepMembers(courses, keep);
    KeepPairwise(courses, keep,
      (a: CourseRow, b: CourseRow) => a.id < b.id && (a.userId == b.userId ==> a.crn != b.crn));
    var courses' := WithoutCourse(courses, courseId);
    forall k | 0 <= k < |courses'|
      ensures courses'[k].userId in UserIds(users)
    {
      assert courses'[k] in courses;
    }
  }

  // ---- `update_user` and `update_settings` as functions of the row ----

  /** `update_user`'s field assignments: only the fields given are replaced. */
  function PatchUser(u: UserRow, name: Option<string>, webhook: Option<string>): (r: UserRow)
    ensures r.id == u.id
    ensures r.name == (if name.Some? then name.value else u.name)
    ensures r.webhookUrl == (if webhook.Some? then webhook.value else u.webhookUrl)
  {
    UserRow(u.id, if name.Some? then name.value else u.name, if webhook.Some? then webhook.value else u.webhookUrl)
  }

  datatype SettingsPatch = Rejected(detail: string) | Patched(row: SettingsRow)

  const MinAboveMax: string := "Minimum refresh interval cannot be greater than maximum"
  const MaxBelowMin: string := "Maximum refresh interval cannot be less than minimum"

  /** The validation and field assignments of `update_settings` against the stored row. */
  function PatchSettings(row: SettingsRow, min: Option<real>, max: Option<real>): SettingsPatch
  {
    if min.Some? && max.Some? && min.value > max.value then Rejected(MinAboveMax)
    else if min.Some? && max.None? && min.value > row.maxRefresh then Rejected(MinAboveMax)
    else if max.Some? && min.None? && max.value < row.minRefresh then Rejected(MaxBelowMin)
    else Patched(SettingsRow(row.id, if min.Some? then min.value else row.minRefresh,
                             if max.Some? then max.value else row.maxRefresh))
  }

  /**
   * The three rejections, each with its message; otherwise only the given
   * bounds are replaced, and an update with neither bound changes nothing.
   */
  lemma PatchSettingsCases(row: SettingsRow, min: Option<real>, max: Option<real>)
    ensures var p := PatchSettings(row, min, max);
      (p == Rejected(MinAboveMax) <==>
         (min.Some? && max.Some? && min.value > max.value) || (min.Some? && max.None? && min.value > row.maxRefresh)) &&
      (p == Rejected(MaxBelowMin) <==> max.Some? && min.None? && max.value < row.minRefresh) &&
      (p.Patched? ==>
         p.row.id == row.id &&
         p.row.minRefresh == (if min.Some? then min.value else row.minRefresh) &&
         p.row.maxRefresh == (if max.Some? then max.value else row.maxRefresh)) &&
      (min.None? && max.None? ==> p == Patched(row))
  {
  }

  /** A successful update keeps min <= max when the stored row had it. */
  lemma PatchSettingsKeepsOrder(row: SettingsRow, min: Option<real>, max: Option<real>)
    requires row.minRefresh <= row.maxRefresh
    ensures PatchSettings(row, min, max).Patched? ==>
      PatchSettings(row, min, max).row.minRefresh <= PatchSettings(row, min, max).row.maxRefresh
  {
  }

  // ---- the API ----

  /** A handler's answer: a success status with its body, or an HTTPException's status and detail. */
  datatype Reply<T> = Done(status: int, value: T) | Refused(status: int, detail: string)

  const UserNotFound: string := "User not found"
  const CourseNotFound: string := "Course not found"
  const SettingsNotFound: string := "Settings not found"
  const WebhookRegistered: string := "Webhook URL already registered"
  const CrnRegistered: string := "Course with this CRN already exists for this user"
  /** What the server answers when the commit raises (the unique constraint on `webhook_url`). */
  const ServerError: string := "Internal Server Error"

  class Database {
    var users: seq<UserRow>
    var courses: seq<CourseRow>
    var settings: seq<SettingsRow>

    predicate Valid()
      reads this
    {
      UsersValid(users) && CoursesValid(users, courses) && |settings| <= 1
    }

    /** A database file whose tables were just created. */
    constructor ()
      ensures Valid() && users == [] && courses == [] && settings == []
    {
      users := [];
      courses := [];
      settings := [];
    }

    /** `init_db`: insert the default settings row when the table has none. */
    method InitDb()
      requires Valid()
      modifies this`settings
      ensures Valid()
      ensures old(settings) == [] ==> settings == [SettingsRow(1, DefaultMinRefresh, DefaultMaxRefresh)]
      ensures old(settings) != [] ==> settings == old(settings)
      ensures |settings| == 1 && (old(settings) == [] ==> settings[0].minRefresh <= settings[0].maxRefresh)
    {
      if settings == [] {
        settings := [SettingsRow(1, DefaultMinRefresh, DefaultMaxRefresh)];
      }
    }

    /** `GET /users/{user_id}`: the user and its courses, or 404. */
    method GetUser(userId: int) returns (r: Reply<(UserRow, seq<CourseRow>)>)
      ensures r.Refused? <==> userId !in UserIds(users)
      ensures r.Refused? ==> r.status == 404 && r.detail == UserNotFound
      ensures r.Done? ==> r.status == 200 && r.value.0 in users && r.value.0.id == userId &&
                          r.value.1 == CoursesOf(courses, userId)
    {
      var i := UserIndex(users, userId);
      if i.None? {
        return Refused(404, UserNotFound);
      }
      return Done(200, (users[i.value], CoursesOf(courses, userId)));
    }

    /** `GET /users/{user_id}/courses`. */
    method GetUserCourses(userId: int) returns (r: Reply<seq<CourseRow>>)
      ensures r.Refused? <==> userId !in UserIds(users)
      ensures r.Refused? ==> r.status == 404 && r.detail == UserNotFound
      ensures r.Done? ==> r.status == 200 && forall c :: c in r.value <==> c in courses && c.userId == userId
    {
      var i := UserIndex(users, userId);
      if i.None? {
        return Refused(404, UserNotFound);
      }
      CoursesOfMembers(courses, userId);
      return Done(200, CoursesOf(courses, userId));
    }

    /** `POST /users/`: a registered webhook is refused, otherwise exactly one user is added. */
    method CreateUser(name: string, webhook: string) returns (r: Reply<UserRow>)
      requires Valid()
      modifies this`users
      ensures Valid()
      ensures old(WebhookTaken(users, webhook)) ==> r == Refused(400, WebhookRegistered) && users == old(users)
      ensures !old(WebhookTaken(users, webhook)) ==>
        r == Done(201, UserRow(old(NextUserId(users)), name, webhook)) && users == old(users) + [r.value]
    {
      if WebhookTaken(users, webhook) {
        return Refused(400, WebhookRegistered);
      }
      var user := UserRow(NextUserId(users), name, webhook);
      NextIdsFresh(users, courses);
      UserIdsAppend(users, user);
      users := users + [user];
      return Done(201, user);
    }

    /**
     * `PUT /users/{user_id}`: 404 for an unknown user; a webhook another user
     * has fails the commit and nothing changes; otherwise only the given fields
     * of that user change.
     */
    method UpdateUser(userId: int, name: Option<string>, webhook: Option<string>) returns (r: Reply<UserRow>)
      requires Valid()
      modifies this`users
      ensures Valid()
      ensures old(userId !in UserIds(users)) ==> r == Refused(404, UserNotFound) && users == old(users)
      ensures old(userId in UserIds(users) && WebhookClash(users, userId, webhook)) ==>
        r == Refused(500, ServerError) && users == old(users)
      ensures old(userId in UserIds(users) && !WebhookClash(users, userId, webhook)) ==>
        var i := old(UserIndex(users, userId)).value;
        r == Done(200, PatchUser(old(users)[i], name, webhook)) && users == old(users)[i := r.value]
    {
      var i := UserIndex(users, userId);
      if i.None? {
        return Refused(404, UserNotFound);
      }
      if WebhookClash(users, userId, webhook) {
        return Refused(500, ServerError);
      }
      var user := PatchUser(users[i.value], name, webhook);
      assert UserIds(users[i.value := user]) == UserIds(users) by {
        assert forall k :: 0 <= k < |users| ==> users[i.value := user][k].id == users[k].id;
      }
      users := users[i.value := user];
      return Done(200, user);
    }

    /** `DELETE /users/{user_id}`: the user and, by the cascade, all of its courses. */
    method DeleteUser(userId: int) returns (r: Reply<()>)
      requires Valid()
      modifies this`users, this`courses
      ensures Valid()
      ensures old(userId !in UserIds(users)) ==>
        r == Refused(404, UserNotFound) && users == old(users) && courses == old(courses)
      ensures old(userId in UserIds(users)) ==>
        r == Done(204, ()) && users == WithoutUser(old(users), userId) && courses == WithoutCoursesOf(old(courses), userId)
    {
      var i := UserIndex(users, userId);
      if i.None? {
        return Refused(404, UserNotFound);
      }
      DeleteUserKeepsValid(users, courses, userId);
      users, courses := WithoutUser(users, userId), WithoutCoursesOf(courses, userId);
      return Done(204, ());
    }

    /** `POST /users/{user_id}/courses`: 404 for an unknown user, 400 for a CRN it has, else one new course. */
    method CreateCourse(userId: int, courseName: string, professor: string, crn: string) returns (r: Reply<CourseRow>)
      requires Valid()
      modifies this`courses
      ensures Valid()
      ensures old(userId !in UserIds(users)) ==> r == Refused(404, UserNotFound) && courses == old(courses)
      ensures old(userId in UserIds(users) && CrnTaken(courses, userId, crn)) ==>
        r == Refused(400, CrnRegistered) && courses == old(courses)
      ensures old(userId in UserIds(users) && !CrnTaken(courses, userId, crn)) ==>
        r == Done(201, CourseRow(old(NextCourseId(courses)), courseName, professor, crn, userId)) &&
        courses == old(courses) + [r.value]
    {
      var i := UserIndex(users, userId);
      if i.None? {
        return Refused(404, UserNotFound);
      }
      if CrnTaken(courses, userId, crn) {
        return Refused(400, CrnRegistered);
      }
      NextIdsFresh(users, courses);
      var course := CourseRow(NextCourseId(courses), courseName, professor, crn, userId);
      assert users[i.value] in users;
      courses := courses + [course];
      return Done(201, course);
    }

    /** `DELETE /courses/{course_id}`: only that row goes. */
    method DeleteCourse(courseId: int) returns (r: Reply<()>)
      requires Valid()
      modifies this`courses
      ensures Valid()
      ensures old(CourseIndex(courses, courseId)).None? ==> r == Refused(404, CourseNotFound) && courses == old(courses)
      ensures old(CourseIndex(courses, courseId)).Some? ==> r == Done(204, ()) && courses == WithoutCourse(old(courses), courseId)
    {
      var i := CourseIndex(courses, courseId);
      if i.None? {
        return Refused(404, CourseNotFound);
      }
      DeleteCourseKeepsValid(users, courses, courseId);
      courses := WithoutCourse(courses, courseId);
      return Done(204, ());
    }

    /** `GET /settings/`: the first settings row, 404 only when there is none. */
    method GetSettings() returns (r: Reply<SettingsRow>)
      ensures r.Refused? <==> settings == []
      ensures r.Refused? ==> r.status == 404 && r.detail == SettingsNotFound
      ensures r.Done? ==> r.status == 200 && r.value == settings[0]
    {
      if settings == [] {
        return Refused(404, SettingsNotFound);
      }
      return Done(200, settings[0]);
    }

    /** `PUT /settings/`: 404 without a row, 400 when the bounds would cross, else the given bounds are stored. */
    method UpdateSettings(min: Option<real>, max: Option<real>) returns (r: Reply<SettingsRow>)
      requires Valid()
      modifies this`settings
      ensures Valid()
      ensures old(settings) == [] ==> r == Refused(404, SettingsNotFound) && settings == old(settings)
      ensures old(settings) != [] && PatchSettings(old(settings)[0], min, max).Rejected? ==>
        r == Refused(400, PatchSettings(old(settings)[0], min, max).detail) && settings == old(settings)
      ensures old(settings) != [] && PatchSettings(old(settings)[0], min, max).Patched? ==>
        r == Done(200, PatchSettings(old(settings)[0], min, max).row) && settings == old(settings)[0 := r.value]
    {
      if settings == [] {
        return Refused(404, SettingsNotFound);
      }
      var patch := PatchSettings(settings[0], min, max);
      if patch.Rejected? {
        return Refused(400, patch.detail);
      }
      settings := settings[0 := patch.row];
      return Done(200, patch.row);
    }
  }
}
