/** The pure parts of the admin dashboard: the session guard, the user ids to
    look up, the user map, and the join of fetched quiz rows with users. */
module AdminDashboard {
  import opened Wrappers
  import opened Seqs
  import opened Records
  import opened AdminTypes

  /** `checkAdminAccess` goes on only with a stored admin e-mail and the
      logged-in flag set to exactly `'true'`; otherwise it sends the browser
      back to the login page. */
  function AccessGranted(adminEmail: Option<string>, adminLoggedIn: Option<string>): (ok: bool)
    ensures ok <==> Truthy(adminEmail) && adminLoggedIn == Some("true")
  {
    !(!Truthy(adminEmail) || adminLoggedIn != Some("true"))
  }

  /** A fetched `quiz_results` row; every column may be null. */
  datatype QuizRow = QuizRow(
    id: string,
    userId: Option<string>,
    careerType: Option<string>,
    logicalScore: Option<nat>,
    personalityAnswers: Option<AnswerMap>,
    logicalAnswers: Option<AnswerMap>,
    completedAt: Option<string>,
    createdAt: Option<string>)

  /** A fetched `users` row. */
  datatype User = User(
    id: string,
    name: Option<string>,
    age: Option<nat>,
    email: Option<string>,
    phone: Option<string>,
    createdAt: Option<string>)

  /** The truthy user ids, in row order, duplicates kept. */
  function PresentUserIds(rows: seq<QuizRow>): (ids: seq<string>)
    ensures forall i :: 0 <= i < |ids| ==> ids[i] != ""
    ensures forall i :: 0 <= i < |ids| ==> exists j :: 0 <= j < |rows| && rows[j].userId == Some(ids[i])
    ensures forall j :: 0 <= j < |rows| && Truthy(rows[j].userId) ==> rows[j].userId.value in ids
  {
    if |rows| == 0 then []
    else
      var init := rows[..|rows| - 1];
      var ids := PresentUserIds(init);
      var u := rows[|rows| - 1].userId;
      assert forall j :: 0 <= j < |init| ==> init[j] == rows[j];
      if Truthy(u) then ids + [u.value] else ids
  }

  /** `userIds`: `[...new Set(ids.filter(Boolean))]`. No id is repeated or
      empty, and an id is listed exactly when some row carries it. */
  function UserIds(rows: seq<QuizRow>): (ids: seq<string>)
    ensures Distinct(ids)
    ensures forall i :: 0 <= i < |ids| ==> ids[i] != ""
    ensures forall id :: id in ids <==> exists j :: 0 <= j < |rows| && Truthy(rows[j].userId)
                                                     && rows[j].userId.value == id
  {
    Dedup(PresentUserIds(rows))
  }

  /** `new Map(users.map(u => [u.id, u]))`: a later user with the same id
      replaces an earlier one, and every id finds a user with that id. */
  function UserMap(users: seq<User>): (m: map<string, User>)
    ensures forall id :: id in m ==> m[id].id == id
  {
    if |users| == 0 then map[]
    else
      var u := users[|users| - 1];
      UserMap(users[..|users| - 1])[u.id := u]
  }

  /** The map holds exactly the fetched ids, each bound to the last user
      fetched with that id. */
  lemma {:induction false} UserMapLastWins(users: seq<User>, id: string)
    ensures id in UserMap(users) <==> exists i :: 0 <= i < |users| && users[i].id == id
    ensures id in UserMap(users) ==>
              exists i :: 0 <= i < |users| && users[i] == UserMap(users)[id]
                          && users[i].id == id
                          && forall j :: i < j < |users| ==> users[j].id != id
  {
    if |users| > 0 {
      var n := |users|;
      var init := users[..n - 1];
      var u := users[n - 1];
      UserMapLastWins(init, id);
      assert UserMap(users) == UserMap(init)[u.id := u];
      if u.id == id {
        assert users[n - 1] == UserMap(users)[id];
      } else if id in UserMap(init) {
        var i :| 0 <= i < |init| && init[i] == UserMap(init)[id] && init[i].id == id
                 && forall j :: i < j < |init| ==> init[j].id != id;
        assert users[i] == init[i];
        assert forall j :: i < j < n ==> users[j].id != id by {
          assert forall j :: i < j < n - 1 ==> users[j] == init[j];
        }
      } else {
        assert forall i :: 0 <= i < n ==> users[i].id != id by {
          assert forall i :: 0 <= i < n - 1 ==> users[i] == init[i];
        }
      }
    }
  }

  /** `usersMap`: empty, and no lookup made, when there is no user id; the
      fetched users are an input. */
  function UsersMap(userIds: seq<string>, fetched: seq<User>): (m: map<string, User>)
    ensures |userIds| == 0 ==> m == map[]
  {
    if |userIds| == 0 then map[] else UserMap(fetched)
  }

  /** `usersMap.get(item.user_id)`; a null id finds nobody. */
  function LookupUser(m: map<string, User>, id: Option<string>): Option<User>
  {
    if id.Some? && id.value in m then Some(m[id.value]) else None
  }

  /** `x || fallback` for a nullable string. */
  function TextOr(s: Option<string>, fallback: string): (r: string)
    ensures Truthy(s) ==> r == s.value
    ensures !Truthy(s) ==> r == fallback
  {
    if Truthy(s) then s.value else fallback
  }

  /** `n || 0` for a nullable number. */
  function NumberOrZero(n: Option<nat>): (r: nat)
    ensures n.Some? ==> r == n.value
    ensures n.None? ==> r == 0
  {
    if n.Some? && n.value != 0 then n.value else 0
  }

  /** One transformed result: identity columns copied, user columns taken
      from the user with fallbacks, `logical_score || 0`, answer maps
      `|| {}`, and the row's creation date falling back to the user's. */
  function TransformRow(item: QuizRow, user: Option<User>): (r: QuizResult)
    ensures r.id == item.id && r.userId == item.userId && r.careerType == item.careerType
    ensures r.completedAt == item.completedAt
    ensures r.name == TextOr(if user.Some? then user.value.name else None, "Unknown")
    ensures r.age == NumberOrZero(if user.Some? then user.value.age else None)
    ensures r.logicalScore == NumberOrZero(item.logicalScore)
    ensures r.email == TextOr(if user.Some? then user.value.email else None, "")
    ensures r.phone == TextOr(if user.Some? then user.value.phone else None, "")
    ensures r.personalityAnswers == item.personalityAnswers.GetOr([])
    ensures r.logicalAnswers == item.logicalAnswers.GetOr([])
    ensures r.createdAt == if Truthy(item.createdAt) then item.createdAt
                           else if user.Some? then user.value.createdAt else None
  {
    QuizResult(
      item.id,
      item.userId,
      TextOr(if user.Some? then user.value.name else None, "Unknown"),
      NumberOrZero(if user.Some? then user.value.age else None),
      TextOr(if user.Some? then user.value.email else None, ""),
      TextOr(if user.Some? then user.value.phone else None, ""),
      item.careerType,
      NumberOrZero(item.logicalScore),
      item.personalityAnswers.GetOr([]),
      item.logicalAnswers.GetOr([]),
      item.completedAt,
      if Truthy(item.createdAt) then item.createdAt
      else if user.Some? then user.value.createdAt else None)
  }

  /** `transformedData`: one result per fetched row, in the same order. */
  function Transform(rows: seq<QuizRow>, m: map<string, User>): (rs: seq<QuizResult>)
    ensures |rs| == |rows|
    ensures forall i :: 0 <= i < |rows| ==> rs[i] == TransformRow(rows[i], LookupUser(m, rows[i].userId))
  {
    seq(|rows|, i requires 0 <= i < |rows| => TransformRow(rows[i], LookupUser(m, rows[i].userId)))
  }

  /** A row whose user is missing gets the placeholder user columns. */
  lemma MissingUserDefaults(item: QuizRow)
    ensures TransformRow(item, None).name == "Unknown"
    ensures TransformRow(item, None).age == 0
    ensures TransformRow(item, None).email == "" && TransformRow(item, None).phone == ""
    ensures TransformRow(item, None).createdAt == if Truthy(item.createdAt) then item.createdAt else None
  {
  }

  /** Null columns of the row get their defaults: score 0, empty answer
      maps, and the user's creation date. */
  lemma NullColumnDefaults(item: QuizRow, user: Option<User>)
    requires item.logicalScore.None? && item.personalityAnswers.None? && item.logicalAnswers.None?
    requires item.createdAt.None?
    ensures TransformRow(item, user).logicalScore == 0
    ensures TransformRow(item, user).personalityAnswers == []
    ensures TransformRow(item, user).logicalAnswers == []
    ensures TransformRow(item, user).createdAt == if user.Some? then user.value.createdAt else None
  {
  }

  /** A found user's present columns and the row's present columns are
      kept as they are. */
  lemma PresentValuesKept(item: QuizRow, u: User)
    ensures Truthy(u.name) ==> TransformRow(item, Some(u)).name == u.name.value
    ensures u.age.Some? ==> TransformRow(item, Some(u)).age == u.age.value
    ensures Truthy(u.email) ==> TransformRow(item, Some(u)).email == u.email.value
    ensures Truthy(u.phone) ==> TransformRow(item, Some(u)).phone == u.phone.value
    ensures item.logicalScore.Some? ==> TransformRow(item, Some(u)).logicalScore == item.logicalScore.value
    ensures item.personalityAnswers.Some? ==>
              TransformRow(item, Some(u)).personalityAnswers == item.personalityAnswers.value
    ensures item.logicalAnswers.Some? ==>
              TransformRow(item, Some(u)).logicalAnswers == item.logicalAnswers.value
    ensures Truthy(item.createdAt) ==> TransformRow(item, Some(u)).createdAt == item.createdAt
    ensures !Truthy(item.createdAt) ==> TransformRow(item, Some(u)).createdAt == u.createdAt
  {
  }

  /** The dashboard's result list for a batch of fetched rows and the users
      the lookup returned: empty for no rows, otherwise the join. */
  function DashboardResults(rows: seq<QuizRow>, fetched: seq<User>): (rs: seq<QuizResult>)
    ensures |rs| == |rows|
    ensures forall i :: 0 <= i < |rows| ==> rs[i].id == rows[i].id
  {
    if |rows| == 0 then []
    else Transform(rows, UsersMap(UserIds(rows), fetched))
  }

  /** When no row carries a user id, no user is looked up and every result
      has the placeholder user columns. */
  lemma NoUserIdsNoUsers(rows: seq<QuizRow>, fetched: seq<User>)
    requires forall j :: 0 <= j < |rows| ==> !Truthy(rows[j].userId)
    ensures forall i :: 0 <= i < |rows| ==>
              DashboardResults(rows, fetched)[i].name == "Unknown"
              && DashboardResults(rows, fetched)[i].age == 0
              && DashboardResults(rows, fetched)[i].email == ""
  {
    if |rows| > 0 {
      assert UserIds(rows) == [];
    }
  }
}
