/**
 * The client's user list: lookup, creation with the next free id, partial
 * update, deletion and filtering by role.
 */
module Users {
  import opened Options
  import opened Seqs
  import opened Auth

  /** A new user's fields, without the id (`Omit<User, 'id'>`). */
  datatype UserData = UserData(email: string, name: string, role: Role)

  /** The fields `updateUser` may change; an absent field keeps its value. */
  datatype UserUpdate = UserUpdate(email: Option<string>, name: Option<string>, role: Option<Role>)

  function UserWithId(id: int): User -> bool {
    (u: User) => u.id == id
  }

  function HasRole(role: Role): User -> bool {
    (u: User) => u.role == role
  }

  /** `getUserById`. */
  function GetUserById(users: seq<User>, id: int): (r: Option<User>)
    ensures r.None? <==> forall j :: 0 <= j < |users| ==> users[j].id != id
    ensures forall i :: IsFirst(users, i, UserWithId(id)) ==> r == Some(users[i])
  {
    Find(users, UserWithId(id))
  }

  /** The largest id in a non-empty list. */
  function MaxId(users: seq<User>): (m: int)
    requires |users| > 0
    ensures forall j :: 0 <= j < |users| ==> users[j].id <= m
    ensures exists j :: 0 <= j < |users| && users[j].id == m
    decreases |users|
  {
    if |users| == 1 then users[0].id
    else
      var rest := MaxId(users[1..]);
      assert forall j :: 1 <= j < |users| ==> users[j] == users[1..][j - 1];
      if users[0].id >= rest then users[0].id else rest
  }

  /**
   * The id `addUser` gives a new user: one more than the largest id, and
   * 1 for an empty list (see `NextIdAsWritten` for the source's value on
   * an empty list).
   */
  function NextUserId(users: seq<User>): (id: int)
    ensures forall j :: 0 <= j < |users| ==> users[j].id < id
    ensures |users| > 0 ==> id == MaxId(users) + 1
    ensures |users| == 0 ==> id == 1
  {
    if |users| == 0 then 1 else MaxId(users) + 1
  }

  /** `addUser`: appends the user under a fresh id and returns it. */
  function AddUser(users: seq<User>, data: UserData): (r: (seq<User>, User))
    ensures r.0 == users + [r.1]
    ensures r.1.email == data.email && r.1.name == data.name && r.1.role == data.role
    ensures forall j :: 0 <= j < |users| ==> users[j].id < r.1.id
    ensures |users| > 0 ==> r.1.id == MaxId(users) + 1
    ensures GetUserById(r.0, r.1.id) == Some(r.1)
  {
    var u := User(NextUserId(users), data.email, data.name, data.role);
    var r := users + [u];
    assert IsFirst(r, |users|, UserWithId(u.id));
    (r, u)
  }

  /** Adding users to a list with distinct ids keeps the ids distinct. */
  lemma AddUserKeepsIdsDistinct(users: seq<User>, data: UserData)
    requires forall i, j :: 0 <= i < j < |users| ==> users[i].id != users[j].id
    ensures var r := AddUser(users, data).0;
      forall i, j :: 0 <= i < j < |r| ==> r[i].id != r[j].id
  {
  }

  /**
   * `updateUser`: the first user with the id gets each present field of
   * the update and keeps its id and every absent field; nobody else
   * changes. An unknown id changes nothing and yields no user.
   */
  function UpdateUser(users: seq<User>, id: int, update: UserUpdate): (r: (seq<User>, Option<User>))
    ensures |r.0| == |users|
    ensures r.1.None? <==> forall j :: 0 <= j < |users| ==> users[j].id != id
    ensures r.1.None? ==> r.0 == users
    ensures forall i :: IsFirst(users, i, UserWithId(id)) ==>
      && r.1 == Some(r.0[i])
      && r.0[i].id == id
      && r.0[i].email == (if update.email.Some? then update.email.value else users[i].email)
      && r.0[i].name == (if update.name.Some? then update.name.value else users[i].name)
      && r.0[i].role == (if update.role.Some? then update.role.value else users[i].role)
    ensures forall j :: 0 <= j < |users| && !IsFirst(users, j, UserWithId(id)) ==> r.0[j] == users[j]
  {
    match FirstIndex(users, UserWithId(id))
    case None => (users, None)
    case Some(i) =>
      var current := users[i];
      var updated := User(
        current.id,
        update.email.GetOr(current.email),
        update.name.GetOr(current.name),
        update.role.GetOr(current.role));
      (users[i := updated], Some(updated))
  }

  /** An update with every field absent changes nothing. */
  lemma EmptyUpdateChangesNothing(users: seq<User>, id: int)
    ensures UpdateUser(users, id, UserUpdate(None, None, None)).0 == users
  {
  }

  /**
   * `deleteUser`: removes the first user with the id and reports whether
   * there was one.
   */
  function DeleteUser(users: seq<User>, id: int): (r: (seq<User>, bool))
    ensures r.1 <==> exists j :: 0 <= j < |users| && users[j].id == id
    ensures !r.1 ==> r.0 == users
    ensures forall i :: IsFirst(users, i, UserWithId(id)) ==> r.0 == users[..i] + users[i + 1..]
  {
    match FirstIndex(users, UserWithId(id))
    case None => (users, false)
    case Some(i) => (RemoveAt(users, i), true)
  }

  /** With distinct ids, a deleted user can no longer be found and everyone else still can. */
  lemma DeleteUserRemovesExactlyOne(users: seq<User>, id: int)
    requires forall i, j :: 0 <= i < j < |users| ==> users[i].id != users[j].id
    ensures var r := DeleteUser(users, id).0;
      && GetUserById(r, id).None?
      && forall j :: 0 <= j < |users| && users[j].id != id ==> users[j] in r
  {
    var r := DeleteUser(users, id).0;
    match FirstIndex(users, UserWithId(id))
    case None =>
    case Some(i) =>
      assert r == users[..i] + users[i + 1..];
      forall j | 0 <= j < |users| && users[j].id != id
        ensures users[j] in r
      {
        if j < i {
          assert r[j] == users[j];
        } else {
          assert r[j - 1] == users[j];
        }
      }
  }

  /** `getUsersByRole`: exactly the users with the role, in list order. */
  function GetUsersByRole(users: seq<User>, role: Role): (r: seq<User>)
    ensures forall i :: 0 <= i < |r| ==> r[i] in users && r[i].role == role
    ensures forall i :: 0 <= i < |users| && users[i].role == role ==> users[i] in r
    ensures forall u :: multiset(r)[u] == if u.role == role then multiset(users)[u] else 0
  {
    FilterMultiplicity(users, HasRole(role));
    Filter(users, HasRole(role))
  }

  /**
   * `getUsersByRole` keeps list order: the users of a role in `a + b` are
   * those of `a` followed by those of `b`.
   */
  lemma GetUsersByRoleKeepsOrder(a: seq<User>, b: seq<User>, role: Role)
    ensures GetUsersByRole(a + b, role) == GetUsersByRole(a, role) + GetUsersByRole(b, role)
  {
    FilterAppend(a, b, HasRole(role));
  }

  // The source's id computation, `Math.max(...ids) + 1`, on JavaScript
  // numbers: `Math.max()` of no arguments is -Infinity, and -Infinity + 1
  // is -Infinity again.

  datatype JsId = NegInfinity | Finite(n: int)

  function JsMax(a: JsId, b: JsId): JsId {
    match (a, b)
    case (NegInfinity, _) => b
    case (_, NegInfinity) => a
    case (Finite(x), Finite(y)) => Finite(if x >= y then x else y)
  }

  function MaxIdAsWritten(ids: seq<JsId>): (m: JsId)
    ensures m.NegInfinity? <==> forall j :: 0 <= j < |ids| ==> ids[j].NegInfinity?
    decreases |ids|
  {
    if |ids| == 0 then NegInfinity else JsMax(ids[0], MaxIdAsWritten(ids[1..]))
  }

  function NextIdAsWritten(ids: seq<JsId>): (id: JsId)
    ensures id.NegInfinity? <==> forall j :: 0 <= j < |ids| ==> ids[j].NegInfinity?
  {
    match MaxIdAsWritten(ids)
    case NegInfinity => NegInfinity
    case Finite(m) => Finite(m + 1)
  }

  function Ids(users: seq<User>): (ids: seq<JsId>)
    ensures |ids| == |users|
    ensures forall j :: 0 <= j < |users| ==> ids[j] == Finite(users[j].id)
  {
    seq(|users|, j requires 0 <= j < |users| => Finite(users[j].id))
  }

  /**
   * As written, adding two users to an empty list gives both the id
   * -Infinity: the ids are no longer distinct.
   */
  lemma AsWrittenEmptyListDuplicates()
    ensures NextIdAsWritten([]) == NegInfinity
    ensures NextIdAsWritten([NextIdAsWritten([])]) == NextIdAsWritten([])
  {
    assert [NegInfinity][1..] == [];
  }

  /** On a non-empty list the corrected id is exactly the source's id. */
  lemma {:induction false} AsWrittenAgreesOnNonEmpty(users: seq<User>)
    requires |users| > 0
    ensures NextIdAsWritten(Ids(users)) == Finite(NextUserId(users))
    decreases |users|
  {
    assert Ids(users)[1..] == Ids(users[1..]);
    if |users| > 1 {
      AsWrittenAgreesOnNonEmpty(users[1..]);
    } else {
      assert Ids(users)[1..] == [];
    }
  }
}
