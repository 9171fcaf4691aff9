/**
 * The three tables of lib/db/schema.ts and the guarantees Postgres gives
 * them: primary keys, the unique and required e-mail of a user, the
 * not-null columns and defaults of a todo, and the foreign keys from todos
 * and chat history to users with `ON DELETE CASCADE`.
 *
 * `Tables` is the content of the database as a value; the insert functions
 * say what an `INSERT` does to it, including when the database refuses it.
 * `Database` is the mutable store the services write to.
 */
module Schema {
  import opened Wrappers
  import opened Seqs

  /** A `uuid` column. */
  type Uuid = string

  /** A `timestamp` column, as a comparable number. */
  type Time = int

  /** A row of `users`; `email` is `notNull().unique()`. */
  datatype User = User(
    id: Uuid,
    email: string,
    fullName: Option<string>,
    avatarUrl: Option<string>,
    createdAt: Time,
    updatedAt: Time)

  /**
   * A row of `todos`: `title` and `isCompleted` are not null, `description`
   * and `dueDate` are optional, and `userId` references `users.id`.
   */
  datatype Todo = Todo(
    id: Uuid,
    userId: Option<Uuid>,
    title: string,
    description: Option<string>,
    isCompleted: bool,
    dueDate: Option<Time>,
    createdAt: Time,
    updatedAt: Time)

  /**
   * A row of `ai_chat_history`: `message` and `response` are not null,
   * everything else is optional; `userId` references `users.id`.
   */
  datatype ChatEntry = ChatEntry(
    id: Uuid,
    userId: Option<Uuid>,
    message: string,
    response: string,
    action: Option<string>,
    entityType: Option<string>,
    entityId: Option<Uuid>,
    metadata: Option<string>,
    createdAt: Time)

  datatype Tables = Tables(users: seq<User>, todos: seq<Todo>, history: seq<ChatEntry>)

  predicate HasUser(t: Tables, id: Uuid)
  {
    exists u :: u in t.users && u.id == id
  }

  predicate HasEmail(t: Tables, email: string)
  {
    exists u :: u in t.users && u.email == email
  }

  predicate HasTodo(t: Tables, id: Uuid)
  {
    exists r :: r in t.todos && r.id == id
  }

  predicate HasEntry(t: Tables, id: Uuid)
  {
    exists h :: h in t.history && h.id == id
  }

  /** A `userId` column that is either null or names an existing user. */
  predicate OwnerExists(t: Tables, owner: Option<Uuid>)
  {
    owner.Some? ==> HasUser(t, owner.value)
  }

  /** What the constraints of the schema guarantee about the stored rows. */
  ghost predicate Consistent(t: Tables)
  {
    && DistinctKeys(t.users, (u: User) => u.id)
    && DistinctKeys(t.users, (u: User) => u.email)
    && DistinctKeys(t.todos, (r: Todo) => r.id)
    && DistinctKeys(t.history, (h: ChatEntry) => h.id)
    && (forall r :: r in t.todos ==> OwnerExists(t, r.userId))
    && (forall h :: h in t.history ==> OwnerExists(t, h.userId))
  }

  /** `INSERT INTO users`: refused on a taken id or a taken e-mail. */
  function InsertUser(t: Tables, u: User): (r: Option<Tables>)
    ensures r.Some? <==> !HasUser(t, u.id) && !HasEmail(t, u.email)
    ensures r.Some? ==> r.value.users == t.users + [u] && r.value.todos == t.todos && r.value.history == t.history
  {
    if HasUser(t, u.id) || HasEmail(t, u.email) then None
    else Some(t.(users := t.users + [u]))
  }

  /** `INSERT INTO todos`: refused on a taken id or an owner that does not exist. */
  function InsertTodo(t: Tables, row: Todo): (r: Option<Tables>)
    ensures r.Some? <==> !HasTodo(t, row.id) && OwnerExists(t, row.userId)
    ensures r.Some? ==> r.value.todos == t.todos + [row] && r.value.users == t.users && r.value.history == t.history
  {
    if HasTodo(t, row.id) || !OwnerExists(t, row.userId) then None
    else Some(t.(todos := t.todos + [row]))
  }

  /** `INSERT INTO ai_chat_history`: refused on a taken id or an owner that does not exist. */
  function InsertEntry(t: Tables, h: ChatEntry): (r: Option<Tables>)
    ensures r.Some? <==> !HasEntry(t, h.id) && OwnerExists(t, h.userId)
    ensures r.Some? ==> r.value.history == t.history + [h] && r.value.users == t.users && r.value.todos == t.todos
  {
    if HasEntry(t, h.id) || !OwnerExists(t, h.userId) then None
    else Some(t.(history := t.history + [h]))
  }

  lemma AppendKeepsDistinctKeys<T, K>(s: seq<T>, x: T, key: T -> K)
    requires DistinctKeys(s, key)
    requires forall y :: y in s ==> key(y) != key(x)
    ensures DistinctKeys(s + [x], key)
  {
    var r := s + [x];
    forall i, j | 0 <= i < j < |r| ensures key(r[i]) != key(r[j]) {
      if j == |s| {
        assert r[i] == s[i] && r[i] in s;
      } else {
        assert r[i] == s[i] && r[j] == s[j];
      }
    }
  }

  /** Every insert the database accepts keeps the constraints. */
  lemma InsertUserConsistent(t: Tables, u: User)
    requires Consistent(t) && InsertUser(t, u).Some?
    ensures Consistent(InsertUser(t, u).value)
  {
    var t' := InsertUser(t, u).value;
    AppendKeepsDistinctKeys(t.users, u, (v: User) => v.id);
    AppendKeepsDistinctKeys(t.users, u, (v: User) => v.email);
    forall r | r in t'.todos ensures OwnerExists(t', r.userId) {
      if r.userId.Some? {
        var v :| v in t.users && v.id == r.userId.value;
        assert v in t'.users;
      }
    }
    forall h | h in t'.history ensures OwnerExists(t', h.userId) {
      if h.userId.Some? {
        var v :| v in t.users && v.id == h.userId.value;
        assert v in t'.users;
      }
    }
  }

  lemma InsertTodoConsistent(t: Tables, row: Todo)
    requires Consistent(t) && InsertTodo(t, row).Some?
    ensures Consistent(InsertTodo(t, row).value)
  {
    AppendKeepsDistinctKeys(t.todos, row, (r: Todo) => r.id);
  }

  lemma InsertEntryConsistent(t: Tables, h: ChatEntry)
    requires Consistent(t) && InsertEntry(t, h).Some?
    ensures Consistent(InsertEntry(t, h).value)
  {
    AppendKeepsDistinctKeys(t.history, h, (e: ChatEntry) => e.id);
  }

  /**
   * `DELETE FROM users WHERE id = ...` with `onDelete: "cascade"` on both
   * foreign keys: the user's todos and chat history go with them.
   */
  function DeleteUser(t: Tables, id: Uuid): (r: Tables)
    ensures !HasUser(r, id)
    ensures forall row :: row in r.todos ==> row.userId != Some(id)
    ensures forall h :: h in r.history ==> h.userId != Some(id)
  {
    Tables(
      Filter((u: User) => u.id != id, t.users),
      Filter((r: Todo) => r.userId != Some(id), t.todos),
      Filter((h: ChatEntry) => h.userId != Some(id), t.history))
  }

  /**
   * After deleting a user nothing refers to them, every other row is still
   * there, and the constraints still hold.
   */
  lemma DeleteUserCascades(t: Tables, id: Uuid)
    requires Consistent(t)
    ensures var t' := DeleteUser(t, id);
      && !HasUser(t', id)
      && (forall r :: r in t'.todos <==> r in t.todos && r.userId != Some(id))
      && (forall h :: h in t'.history <==> h in t.history && h.userId != Some(id))
      && (forall u :: u in t'.users <==> u in t.users && u.id != id)
      && Consistent(t')
  {
    var t' := DeleteUser(t, id);
    FilterKeepsDistinctKeys((u: User) => u.id != id, t.users, (u: User) => u.id);
    FilterKeepsDistinctKeys((u: User) => u.id != id, t.users, (u: User) => u.email);
    FilterKeepsDistinctKeys((r: Todo) => r.userId != Some(id), t.todos, (r: Todo) => r.id);
    FilterKeepsDistinctKeys((h: ChatEntry) => h.userId != Some(id), t.history, (h: ChatEntry) => h.id);
    forall r | r in t'.todos ensures OwnerExists(t', r.userId) {
      if r.userId.Some? {
        var v :| v in t.users && v.id == r.userId.value;
        assert v in t'.users;
      }
    }
    forall h | h in t'.history ensures OwnerExists(t', h.userId) {
      if h.userId.Some? {
        var v :| v in t.users && v.id == h.userId.value;
        assert v in t'.users;
      }
    }
  }

  /** The database: one sequence of rows per table, in insertion order. */
  class Database {
    var users: seq<User>
    var todos: seq<Todo>
    var history: seq<ChatEntry>

    function State(): Tables
      reads this
    {
      Tables(users, todos, history)
    }

    ghost predicate Valid()
      reads this
    {
      Consistent(State())
    }

    constructor()
      ensures State() == Tables([], [], []) && Valid()
    {
      users := [];
      todos := [];
      history := [];
    }

    /** `db.insert(users).values(u)`: `false` when the database refuses the row. */
    method AddUser(u: User) returns (ok: bool)
      requires Valid()
      modifies this
      ensures Valid()
      ensures ok == InsertUser(old(State()), u).Some?
      ensures State() == InsertUser(old(State()), u).GetOr(old(State()))
    {
      ok := !HasUser(State(), u.id) && !HasEmail(State(), u.email);
      if ok {
        InsertUserConsistent(State(), u);
        users := users + [u];
      }
    }

    /** `db.insert(todos).values(row)`. */
    method AddTodo(row: Todo) returns (ok: bool)
      requires Valid()
      modifies this
      ensures Valid()
      ensures ok == InsertTodo(old(State()), row).Some?
      ensures State() == InsertTodo(old(State()), row).GetOr(old(State()))
    {
      ok := !HasTodo(State(), row.id) && OwnerExists(State(), row.userId);
      if ok {
        InsertTodoConsistent(State(), row);
        todos := todos + [row];
      }
    }

    /** `db.insert(aiChatHistory).values(h)`. */
    method AddEntry(h: ChatEntry) returns (ok: bool)
      requires Valid()
      modifies this
      ensures Valid()
      ensures ok == InsertEntry(old(State()), h).Some?
      ensures State() == InsertEntry(old(State()), h).GetOr(old(State()))
    {
      ok := !HasEntry(State(), h.id) && OwnerExists(State(), h.userId);
      if ok {
        InsertEntryConsistent(State(), h);
        history := history + [h];
      }
    }
  }
}
