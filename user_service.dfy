/**
 * `UserService` (lib/services/user-service.ts): copying a Supabase account
 * into the `users` table unless a row with its id is already there, and
 * looking a user up by id.
 */
module UserService {
  import opened Wrappers
  import opened Seqs
  import opened Schema

  /**
   * The parts of a Supabase `User` that are read. `id` is always a string,
   * so `id || ""` is `id` itself; `email` may be missing; `user_metadata`
   * is a string map that may be missing.
   */
  datatype SupabaseUser = SupabaseUser(id: Uuid, email: Option<string>, metadata: Option<map<string, string>>)

  /**
   * `user_metadata && user_metadata[key] ? user_metadata[key] : null`: the
   * value when there is metadata and the value is truthy (a non-empty string).
   */
  function MetadataField(metadata: Option<map<string, string>>, key: string): (r: Option<string>)
    ensures r.Some? <==> metadata.Some? && key in metadata.value && metadata.value[key] != ""
    ensures r.Some? ==> r.value == metadata.value[key]
  {
    if metadata.Some? && key in metadata.value && metadata.value[key] != "" then Some(metadata.value[key])
    else None
  }

  /** The row inserted for a new account; `createdAt` and `updatedAt` take their default, now. */
  function NewUser(su: SupabaseUser, now: Time): User
  {
    User(su.id, su.email.GetOr(""), MetadataField(su.metadata, "full_name"), MetadataField(su.metadata, "avatar_url"),
         now, now)
  }

  /** The first user in `users` with this id. */
  function FindUser(users: seq<User>, id: Uuid): (r: Option<User>)
    ensures r.None? <==> forall u :: u in users ==> u.id != id
    ensures r.Some? ==> exists i :: 0 <= i < |users| && users[i] == r.value && r.value.id == id
                                 && forall j :: 0 <= j < i ==> users[j].id != id
  {
    if users == [] then None
    else if users[0].id == id then Some(users[0])
    else
      var r := FindUser(users[1..], id);
      assert forall u :: u in users ==> u == users[0] || u in users[1..];
      if r.Some? then
        var i :| 0 <= i < |users[1..]| && users[1..][i] == r.value && r.value.id == id
                 && forall j :: 0 <= j < i ==> users[1..][j].id != id;
        assert users[i + 1] == r.value;
        assert forall j :: 0 <= j < i + 1 ==> j == 0 || users[j] == users[1..][j - 1];
        r
      else r
  }

  /** `getUser`: the first row with this id, or nothing. */
  function GetUser(t: Tables, id: Uuid): (r: Option<User>)
    ensures r.None? <==> !HasUser(t, id)
    ensures r.Some? ==> r.value in t.users && r.value.id == id
  {
    FindUser(t.users, id)
  }

  /**
   * `createUserFromSupabase` as a function of the tables: the existing row
   * and no change, or the new row and the table with it appended, or a
   * refusal (a taken e-mail) that changes nothing.
   */
  function CreateUser(t: Tables, su: SupabaseUser, now: Time): (r: (Option<User>, Tables))
    ensures r.0.Some? ==> r.0.value.id == su.id && r.0.value in r.1.users
    ensures r.1.todos == t.todos && r.1.history == t.history
    ensures r.1.users == t.users || r.1.users == t.users + [NewUser(su, now)]
  {
    match GetUser(t, su.id)
    case Some(u) => (Some(u), t)
    case None =>
      var u := NewUser(su, now);
      match InsertUser(t, u)
      case Some(t') => (Some(u), t')
      case None => (None, t)
  }

  /** `createUserFromSupabase`: look the id up, and insert only when it is absent. */
  method CreateUserFromSupabase(db: Database, su: SupabaseUser, now: Time) returns (r: Option<User>)
    requires db.Valid()
    modifies db
    ensures db.Valid()
    ensures (r, db.State()) == CreateUser(old(db.State()), su, now)
  {
    var existing := GetUser(db.State(), su.id);
    if existing.Some? {
      return existing;
    }
    var u := NewUser(su, now);
    var ok := db.AddUser(u);
    r := if ok then Some(u) else None;
  }

  /** An account whose id is already stored gets the stored row back, and the table does not change. */
  lemma ExistingUserUnchanged(t: Tables, su: SupabaseUser, now: Time)
    requires HasUser(t, su.id)
    ensures var (r, t') := CreateUser(t, su, now);
      && t' == t && r.Some? && r.value in t.users && r.value.id == su.id
  {
  }

  /**
   * For a new id exactly one row is appended: its id is the account's, its
   * e-mail the account's or "", and its name and avatar come from truthy
   * metadata or are null. The insert is refused exactly when the e-mail is
   * taken.
   */
  lemma NewUserInserted(t: Tables, su: SupabaseUser, now: Time)
    requires !HasUser(t, su.id)
    ensures var (r, t') := CreateUser(t, su, now);
      && (r.None? <==> HasEmail(t, su.email.GetOr("")))
      && (r.None? ==> t' == t)
      && (r.Some? ==>
            && t'.users == t.users + [r.value] && t'.todos == t.todos && t'.history == t.history
            && r.value.id == su.id
            && r.value.email == (if su.email.Some? then su.email.value else "")
            && r.value.fullName == MetadataField(su.metadata, "full_name")
            && r.value.avatarUrl == MetadataField(su.metadata, "avatar_url"))
  {
  }

  /** Calling it again, at any later time, returns the same and changes nothing more. */
  lemma {:induction false} CreateUserIdempotent(t: Tables, su: SupabaseUser, now: Time, later: Time)
    ensures var (r, t') := CreateUser(t, su, now);
      CreateUser(t', su, later) == (r, t')
  {
    var (r, t') := CreateUser(t, su, now);
    if !HasUser(t, su.id) && r.Some? {
      assert t'.users == t.users + [r.value];
      GetUserAppend(t, r.value);
    } else if !HasUser(t, su.id) {
      assert t' == t;
      assert InsertUser(t, NewUser(su, later)).None?;
    }
  }

  /** The first row with an id that was absent before is the one appended. */
  lemma GetUserAppend(t: Tables, u: User)
    requires !HasUser(t, u.id)
    ensures GetUser(t.(users := t.users + [u]), u.id) == Some(u)
  {
    var users := t.users + [u];
    assert users[|t.users|] == u;
    var r := FindUser(users, u.id);
    var i :| 0 <= i < |users| && users[i] == r.value && r.value.id == u.id
             && forall j :: 0 <= j < i ==> users[j].id != u.id;
  }
}
