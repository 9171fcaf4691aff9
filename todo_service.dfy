/**
 * `TodoService` (lib/services/todo-service.ts): owner-scoped create, read,
 * update and delete over the `todos` table, and `processAICommand`, which
 * classifies a chat message, logs it to `ai_chat_history` and, for a todo
 * command, creates a todo or lists the caller's todos.
 *
 * Record ids and timestamps, which the database or `new Date()` produce, are
 * parameters. A statement the database refuses rejects the call: the
 * operations return `None` or `Rejected` and the tables keep what was written
 * before the refusal.
 */
module TodoService {
  import opened Wrappers
  import opened Seqs
  import opened Text
  import opened Intent
  import opened Extract
  import opened Schema

  /** `CreateTodoData`: `description` and `dueDate` may be left out. */
  datatype CreateTodoData = CreateTodoData(title: string, description: Option<string>, dueDate: Option<Time>)

  /** `UpdateTodoData`: every field may be left out, and only the given ones are set. */
  datatype UpdateTodoData = UpdateTodoData(
    title: Option<string>,
    description: Option<string>,
    isCompleted: Option<bool>,
    dueDate: Option<Time>)

  /**
   * The row `createTodo` inserts: the given fields, the owner, and the column
   * defaults for the rest (`isCompleted` false, both timestamps now).
   */
  function NewTodo(id: Uuid, userId: Uuid, data: CreateTodoData, now: Time): Todo
  {
    Schema.Todo(id, Some(userId), data.title, data.description, false, data.dueDate, now, now)
  }

  /** The `WHERE id = todoId AND user_id = userId` of `getTodo`, `updateTodo` and `deleteTodo`. */
  predicate Targets(row: Todo, userId: Uuid, todoId: Uuid)
  {
    row.id == todoId && row.userId == Some(userId)
  }

  predicate OwnedBy(row: Todo, userId: Uuid)
  {
    row.userId == Some(userId)
  }

  // ---------------------------------------------------------------------------
  // createTodo
  // ---------------------------------------------------------------------------

  /** `createTodo`: inserts one row owned by `userId` and returns it. */
  method CreateTodo(db: Database, userId: Uuid, data: CreateTodoData, id: Uuid, now: Time) returns (r: Option<Todo>)
    requires db.Valid()
    modifies db
    ensures db.Valid()
    ensures var row := NewTodo(id, userId, data, now);
      match InsertTodo(old(db.State()), row)
      case Some(t) => r == Some(row) && db.State() == t
      case None => r == None && db.State() == old(db.State())
  {
    var row := NewTodo(id, userId, data, now);
    var ok := db.AddTodo(row);
    r := if ok then Some(row) else None;
  }

  /**
   * A created todo is owned by the caller, carries the given title,
   * description and due date, is not completed, and is the only row added.
   */
  lemma CreatedTodo(t: Tables, userId: Uuid, data: CreateTodoData, id: Uuid, now: Time)
    requires InsertTodo(t, NewTodo(id, userId, data, now)).Some?
    ensures var t' := InsertTodo(t, NewTodo(id, userId, data, now)).value;
      && |t'.todos| == |t.todos| + 1 && t'.todos[..|t.todos|] == t.todos
      && var row := t'.todos[|t.todos|];
      && row.id == id && OwnedBy(row, userId)
      && row.title == data.title && row.description == data.description && row.dueDate == data.dueDate
      && !row.isCompleted
      && t'.users == t.users && t'.history == t.history
  {
    var t' := InsertTodo(t, NewTodo(id, userId, data, now)).value;
    assert t'.todos[..|t.todos|] == t.todos;
  }

  // ---------------------------------------------------------------------------
  // getTodos, getTodo
  // ---------------------------------------------------------------------------

  /** `ORDER BY created_at DESC`. */
  ghost predicate NewestFirst(s: seq<Todo>)
  {
    forall i, j :: 0 <= i < j < |s| ==> s[i].createdAt >= s[j].createdAt
  }

  lemma NewestFirstCons(h: Todo, s: seq<Todo>)
    requires NewestFirst(s)
    requires forall y :: y in s ==> y.createdAt <= h.createdAt
    ensures NewestFirst([h] + s)
  {
    var r := [h] + s;
    forall i, j | 0 <= i < j < |r| ensures r[i].createdAt >= r[j].createdAt {
      if i == 0 {
        assert r[j] == s[j - 1] && s[j - 1] in s;
      } else {
        assert r[i] == s[i - 1] && r[j] == s[j - 1];
      }
    }
  }

  function InsertByDate(x: Todo, s: seq<Todo>): (r: seq<Todo>)
    requires NewestFirst(s)
    ensures NewestFirst(r)
    ensures multiset(r) == multiset(s) + multiset{x}
  {
    if s == [] || x.createdAt >= s[0].createdAt then
      BoundedByHead(x.createdAt, s);
      NewestFirstCons(x, s);
      [x] + s
    else
      var rest := InsertByDate(x, s[1..]);
      assert s == [s[0]] + s[1..];
      InsertedUnderHead(x, s, rest);
      NewestFirstCons(s[0], rest);
      [s[0]] + rest
  }

  /** Inserting a row older than the head into the tail leaves every row no newer than the head. */
  lemma InsertedUnderHead(x: Todo, s: seq<Todo>, rest: seq<Todo>)
    requires NewestFirst(s) && s != [] && x.createdAt < s[0].createdAt
    requires multiset(rest) == multiset(s[1..]) + multiset{x}
    ensures forall y :: y in rest ==> y.createdAt <= s[0].createdAt
  {
    BoundedByHead(s[0].createdAt, s[1..]);
    forall y | y in rest ensures y.createdAt <= s[0].createdAt {
      assert y in multiset(rest);
      assert y == x || y in multiset(s[1..]);
    }
  }

  /** Every row of a newest-first sequence is no newer than its head, nor than anything newer than the head. */
  lemma BoundedByHead(t: Time, s: seq<Todo>)
    requires NewestFirst(s) && (s == [] || s[0].createdAt <= t)
    ensures forall y :: y in s ==> y.createdAt <= t
  {
    forall y | y in s ensures y.createdAt <= t {
      var j :| 0 <= j < |s| && s[j] == y;
      assert s[0].createdAt >= s[j].createdAt;
    }
  }

  /** An insertion sort, newest first; among rows created at the same time it keeps their table order. */
  function SortNewestFirst(s: seq<Todo>): (r: seq<Todo>)
    ensures NewestFirst(r)
    ensures multiset(r) == multiset(s)
  {
    if s == [] then []
    else
      assert s == [s[0]] + s[1..];
      InsertByDate(s[0], SortNewestFirst(s[1..]))
  }

  /**
   * `getTodos`: exactly the caller's rows, each as often as it is stored,
   * newest first.
   */
  function GetTodos(t: Tables, userId: Uuid): (r: seq<Todo>)
    ensures NewestFirst(r)
    ensures multiset(r) == multiset(Filter((row: Todo) => OwnedBy(row, userId), t.todos))
    ensures forall row :: row in r <==> row in t.todos && OwnedBy(row, userId)
  {
    var owned := Filter((row: Todo) => OwnedBy(row, userId), t.todos);
    var r := SortNewestFirst(owned);
    assert forall row :: row in r <==> row in multiset(owned);
    r
  }

  /** `getTodo`: the row with this id, provided the caller owns it. */
  function GetTodo(t: Tables, userId: Uuid, todoId: Uuid): (r: Option<Todo>)
    ensures r.Some? ==> r.value in t.todos && Targets(r.value, userId, todoId)
    ensures r.None? <==> forall row :: row in t.todos ==> !Targets(row, userId, todoId)
  {
    var hits := Filter((row: Todo) => Targets(row, userId, todoId), t.todos);
    if hits == [] then None
    else
      assert hits[0] in hits;
      Some(hits[0])
  }

  // ---------------------------------------------------------------------------
  // updateTodo
  // ---------------------------------------------------------------------------

  /** `SET ...data, updatedAt = now`: the given fields replace the stored ones. */
  function Apply(row: Todo, data: UpdateTodoData, now: Time): Todo
  {
    row.(
      title := data.title.GetOr(row.title),
      description := if data.description.Some? then data.description else row.description,
      isCompleted := data.isCompleted.GetOr(row.isCompleted),
      dueDate := if data.dueDate.Some? then data.dueDate else row.dueDate,
      updatedAt := now)
  }

  function UpdateRows(rows: seq<Todo>, userId: Uuid, todoId: Uuid, data: UpdateTodoData, now: Time): (r: seq<Todo>)
    ensures |r| == |rows|
    ensures forall i :: 0 <= i < |rows| ==>
              r[i].id == rows[i].id && r[i].userId == rows[i].userId && r[i].createdAt == rows[i].createdAt
  {
    seq(|rows|, i requires 0 <= i < |rows| =>
      if Targets(rows[i], userId, todoId) then Apply(rows[i], data, now) else rows[i])
  }

  /**
   * An update touches only the targeted row: every other row is unchanged; in
   * the targeted one the given fields are set, the others kept, `updatedAt`
   * is now, and id, owner and creation time stay.
   */
  lemma UpdateOnlyTarget(rows: seq<Todo>, userId: Uuid, todoId: Uuid, data: UpdateTodoData, now: Time, i: nat)
    requires i < |rows|
    ensures var rows' := UpdateRows(rows, userId, todoId, data, now);
      && |rows'| == |rows|
      && (!Targets(rows[i], userId, todoId) ==> rows'[i] == rows[i])
      && (Targets(rows[i], userId, todoId) ==>
            && rows'[i].id == rows[i].id && rows'[i].userId == rows[i].userId
            && rows'[i].createdAt == rows[i].createdAt && rows'[i].updatedAt == now
            && rows'[i].title == (if data.title.Some? then data.title.value else rows[i].title)
            && rows'[i].description == (if data.description.Some? then data.description else rows[i].description)
            && rows'[i].isCompleted == (if data.isCompleted.Some? then data.isCompleted.value else rows[i].isCompleted)
            && rows'[i].dueDate == (if data.dueDate.Some? then data.dueDate else rows[i].dueDate))
  {
  }

  /** A caller who does not own the todo, or a todo that does not exist, changes nothing. */
  lemma UpdateMismatchIsNoOp(rows: seq<Todo>, userId: Uuid, todoId: Uuid, data: UpdateTodoData, now: Time)
    requires forall row :: row in rows ==> !Targets(row, userId, todoId)
    ensures UpdateRows(rows, userId, todoId, data, now) == rows
  {
    var rows' := UpdateRows(rows, userId, todoId, data, now);
    forall i | 0 <= i < |rows| ensures rows'[i] == rows[i] {
      assert rows[i] in rows;
    }
  }

  /** An update keeps ids and owners, so the constraints still hold. */
  lemma UpdateConsistent(t: Tables, userId: Uuid, todoId: Uuid, data: UpdateTodoData, now: Time)
    requires Consistent(t)
    ensures Consistent(t.(todos := UpdateRows(t.todos, userId, todoId, data, now)))
  {
    var rows' := UpdateRows(t.todos, userId, todoId, data, now);
    var t' := t.(todos := rows');
    forall i, j | 0 <= i < j < |rows'| ensures rows'[i].id != rows'[j].id {
      assert rows'[i].id == t.todos[i].id && rows'[j].id == t.todos[j].id;
    }
    forall r | r in rows' ensures OwnerExists(t', r.userId) {
      var i :| 0 <= i < |rows'| && rows'[i] == r;
      assert t.todos[i] in t.todos;
    }
  }

  /** The `RETURNING` row: the first row the update changed, if any. */
  function FirstUpdated(rows: seq<Todo>, userId: Uuid, todoId: Uuid, data: UpdateTodoData, now: Time): (r: Option<Todo>)
    ensures r.Some? ==> exists row :: row in rows && Targets(row, userId, todoId) && r.value == Apply(row, data, now)
    ensures r.None? <==> forall row :: row in rows ==> !Targets(row, userId, todoId)
  {
    var hit := GetTodo(Tables([], rows, []), userId, todoId);
    if hit.Some? then Some(Apply(hit.value, data, now)) else None
  }

  /** `updateTodo`. */
  method UpdateTodo(db: Database, userId: Uuid, todoId: Uuid, data: UpdateTodoData, now: Time) returns (r: Option<Todo>)
    requires db.Valid()
    modifies db
    ensures db.Valid()
    ensures db.todos == UpdateRows(old(db.todos), userId, todoId, data, now)
    ensures db.users == old(db.users) && db.history == old(db.history)
    ensures r == FirstUpdated(old(db.todos), userId, todoId, data, now)
  {
    r := FirstUpdated(db.todos, userId, todoId, data, now);
    UpdateConsistent(db.State(), userId, todoId, data, now);
    db.todos := UpdateRows(db.todos, userId, todoId, data, now);
  }

  // ---------------------------------------------------------------------------
  // deleteTodo
  // ---------------------------------------------------------------------------

  function DeleteRows(rows: seq<Todo>, userId: Uuid, todoId: Uuid): (r: seq<Todo>)
    ensures |r| <= |rows|
    ensures forall row :: row in r <==> row in rows && !Targets(row, userId, todoId)
  {
    Filter((row: Todo) => !Targets(row, userId, todoId), rows)
  }

  /**
   * A delete removes the targeted row and nothing else, in order, and keeps
   * the constraints; for a caller who does not own the todo it is a no-op.
   */
  lemma DeleteOnlyTarget(t: Tables, userId: Uuid, todoId: Uuid)
    requires Consistent(t)
    ensures var rows' := DeleteRows(t.todos, userId, todoId);
      && (forall row :: row in rows' <==> row in t.todos && !Targets(row, userId, todoId))
      && Consistent(t.(todos := rows'))
      && ((forall row :: row in t.todos ==> !Targets(row, userId, todoId)) ==> rows' == t.todos)
  {
    var p := (row: Todo) => !Targets(row, userId, todoId);
    FilterKeepsDistinctKeys(p, t.todos, (r: Todo) => r.id);
    if forall row :: row in t.todos ==> !Targets(row, userId, todoId) {
      FilterAll(p, t.todos);
    }
  }

  /** `deleteTodo`. */
  method DeleteTodo(db: Database, userId: Uuid, todoId: Uuid)
    requires db.Valid()
    modifies db
    ensures db.Valid()
    ensures db.todos == DeleteRows(old(db.todos), userId, todoId)
    ensures db.users == old(db.users) && db.history == old(db.history)
  {
    DeleteOnlyTarget(db.State(), userId, todoId);
    db.todos := DeleteRows(db.todos, userId, todoId);
  }

  // ---------------------------------------------------------------------------
  // processAICommand
  // ---------------------------------------------------------------------------

  /** The optional `data` of an `AIResponse`: left out, `null`, a todo, or a list of todos. */
  datatype Data = Absent | Null | Created(todo: Todo) | Listed(todos: seq<Todo>)

  datatype CommandResult = CommandResult(action: Action, entity: Entity, message: string, data: Data)

  /** How a call ends: with a response, or rejected by a database error. */
  datatype Outcome = Done(result: CommandResult) | Rejected

  const UnauthorizedResult := CommandResult(Action.Unknown, Entity.Unknown, "Unauthorized", Null)

  function ActionName(a: Action): string
  {
    match a
    case Create => "create"
    case Read => "read"
    case List => "list"
    case Unknown => "unknown"
  }

  function EntityName(e: Entity): string
  {
    match e
    case Todo => "todo"
    case User => "user"
    case Unknown => "unknown"
  }

  /** The chat-history row: the raw message and the processed response, action and entity. */
  function LogEntry(id: Uuid, userId: Uuid, message: string, ai: Response, now: Time): ChatEntry
  {
    ChatEntry(id, Some(userId), message, ai.message, Some(ActionName(ai.action)), Some(EntityName(ai.entity)),
              None, None, now)
  }

  /** The todo the create branch inserts: the title and description extracted from the raw message. */
  function CommandTodo(id: Uuid, userId: Uuid, message: string, now: Time): Todo
  {
    NewTodo(id, userId, CreateTodoData(ExtractTitle(message), ExtractDescription(message), None), now)
  }

  function ListMessage(n: nat): string
  {
    "You have " + NatToString(n) + " todos."
  }

  /**
   * `processAICommand`, step by step, as a function of the tables before the
   * call: the outcome and the tables after it. `mode` is what reaches
   * `processMessage`; the source passes none, so it is `DefaultMode`.
   */
  function Command(t: Tables, authenticated: bool, userId: Uuid, message: string, mode: Mode,
                   generate: Generator, historyId: Uuid, todoId: Uuid, now: Time): (r: (Outcome, Tables))
    ensures r.1.users == t.users
    ensures !authenticated ==> r.1 == t
    ensures r.1.history == t.history
            || r.1.history == t.history + [LogEntry(historyId, userId, message, ProcessMessage(message, mode, generate), now)]
    ensures r.1.todos == t.todos || r.1.todos == t.todos + [CommandTodo(todoId, userId, message, now)]
    ensures r.1.todos != t.todos ==> r.1.history != t.history
  {
    if !authenticated then (Done(UnauthorizedResult), t)
    else
      var ai := ProcessMessage(message, mode, generate);
      match InsertEntry(t, LogEntry(historyId, userId, message, ai, now))
      case None => (Rejected, t)
      case Some(t1) =>
        var passThrough := Done(CommandResult(ai.action, ai.entity, ai.message, Absent));
        if ai.entity != Entity.Todo then (passThrough, t1)
        else
          match ai.action
          case Create =>
            var row := CommandTodo(todoId, userId, message, now);
            (match InsertTodo(t1, row)
             case None => (Rejected, t1)
             case Some(t2) => (Done(CommandResult(ai.action, ai.entity, "Todo created: " + row.title, Created(row))), t2))
          case List =>
            var todos := GetTodos(t1, userId);
            (Done(CommandResult(ai.action, ai.entity, ListMessage(|todos|), Listed(todos))), t1)
          case Read =>
            var todos := GetTodos(t1, userId);
            (Done(CommandResult(ai.action, ai.entity, ListMessage(|todos|), Listed(todos))), t1)
          case Unknown => (passThrough, t1)
  }

  /** `processAICommand`: the history row first, then at most one todo. */
  method ProcessAICommand(db: Database, authenticated: bool, userId: Uuid, message: string, mode: Mode,
                          generate: Generator, historyId: Uuid, todoId: Uuid, now: Time)
    returns (out: Outcome)
    requires db.Valid()
    modifies db
    ensures db.Valid()
    ensures (out, db.State()) == Command(old(db.State()), authenticated, userId, message, mode, generate,
                                         historyId, todoId, now)
  {
    if !authenticated {
      return Done(UnauthorizedResult);
    }
    var ai := ProcessMessage(message, mode, generate);
    var logged := db.AddEntry(LogEntry(historyId, userId, message, ai, now));
    if !logged {
      return Rejected;
    }
    var passThrough := Done(CommandResult(ai.action, ai.entity, ai.message, Absent));
    if ai.entity != Entity.Todo {
      return passThrough;
    }
    match ai.action {
      case Create =>
        var data := CreateTodoData(ExtractTitle(message), ExtractDescription(message), None);
        var created := CreateTodo(db, userId, data, todoId, now);
        if created.None? {
          return Rejected;
        }
        out := Done(CommandResult(ai.action, ai.entity, "Todo created: " + created.value.title, Created(created.value)));
      case List =>
        var todos := GetTodos(db.State(), userId);
        out := Done(CommandResult(ai.action, ai.entity, ListMessage(|todos|), Listed(todos)));
      case Read =>
        var todos := GetTodos(db.State(), userId);
        out := Done(CommandResult(ai.action, ai.entity, ListMessage(|todos|), Listed(todos)));
      case Unknown =>
        out := passThrough;
    }
  }

  /** Without an authenticated user the call answers "Unauthorized" and writes nothing. */
  lemma UnauthorizedWritesNothing(t: Tables, userId: Uuid, message: string, mode: Mode,
                                  generate: Generator, historyId: Uuid, todoId: Uuid, now: Time)
    ensures Command(t, false, userId, message, mode, generate, historyId, todoId, now)
            == (Done(CommandResult(Action.Unknown, Entity.Unknown, "Unauthorized", Null)), t)
  {
  }

  /**
   * Once the history row of an authenticated call is accepted, it stays,
   * whatever follows: exactly one row with the caller's id, the raw message
   * and the generated reply (not the final "Todo created" or "You have N
   * todos." text), even when the todo insert after it is refused. No user
   * changes, and a refused todo insert leaves the todos as they were.
   */
  lemma OneHistoryRow(t: Tables, userId: Uuid, message: string, mode: Mode,
                      generate: Generator, historyId: Uuid, todoId: Uuid, now: Time)
    requires InsertEntry(t, LogEntry(historyId, userId, message, ProcessMessage(message, mode, generate), now)).Some?
    ensures var (out, t') := Command(t, true, userId, message, mode, generate, historyId, todoId, now);
      var ai := ProcessMessage(message, mode, generate);
      && (out.Rejected? ==> t'.todos == t.todos)
      && t'.history == t.history + [LogEntry(historyId, userId, message, ai, now)]
      && t'.history[|t.history|].userId == Some(userId)
      && t'.history[|t.history|].message == message
      && t'.history[|t.history|].response == ai.message
      && t'.users == t.users
  {
  }

  /**
   * With the default chat mode, which is what the source passes, the entity
   * is never "todo": no todo is created or listed, the todos table is left
   * alone, and the reply is the generated text.
   */
  lemma DefaultModeLeavesTodos(t: Tables, authenticated: bool, userId: Uuid, message: string,
                               generate: Generator, historyId: Uuid, todoId: Uuid, now: Time)
    ensures var (out, t') := Command(t, authenticated, userId, message, DefaultMode, generate, historyId, todoId, now);
      && t'.todos == t.todos
      && (out.Done? ==> out.result.action == Action.Unknown && out.result.entity == Entity.Unknown)
      && (out.Done? ==> out.result.data == Absent || out.result.data == Null)
      && (authenticated && out.Done? ==> out.result.message == ProcessMessage(message, DefaultMode, generate).message)
  {
  }

  /**
   * In todo mode, every classification other than create, list or read of a
   * todo (the refused update and delete, help, and anything unrecognised) is
   * passed through: no todo is written, and the caller gets the classifier's
   * action and entity and the generated reply, with no data.
   */
  lemma PassThrough(t: Tables, userId: Uuid, message: string, generate: Generator,
                    historyId: Uuid, todoId: Uuid, now: Time)
    requires var c := ParseUserIntentTodo(message, false);
      !(c.entity == Entity.Todo && c.action in {Create, List, Read})
    requires Command(t, true, userId, message, TodoMode, generate, historyId, todoId, now).0.Done?
    ensures var (out, t') := Command(t, true, userId, message, TodoMode, generate, historyId, todoId, now);
      var ai := ProcessMessage(message, TodoMode, generate);
      && t'.todos == t.todos
      && t'.history == t.history + [LogEntry(historyId, userId, message, ai, now)]
      && out.result == CommandResult(ai.action, ai.entity, ai.message, Absent)
  {
  }

  /**
   * In todo mode, a create/todo classification with the inserts accepted
   * adds exactly one todo owned by the caller, with the extracted title and
   * description, and reports "Todo created: " + title.
   */
  lemma CreateBranch(t: Tables, userId: Uuid, message: string, generate: Generator,
                     historyId: Uuid, todoId: Uuid, now: Time)
    requires ParseUserIntentTodo(message, false).action == Create
    requires ParseUserIntentTodo(message, false).entity == Entity.Todo
    requires Command(t, true, userId, message, TodoMode, generate, historyId, todoId, now).0.Done?
    ensures var (out, t') := Command(t, true, userId, message, TodoMode, generate, historyId, todoId, now);
      var title := ExtractTitle(message);
      && |t'.todos| == |t.todos| + 1 && t'.todos[..|t.todos|] == t.todos
      && t'.todos[|t.todos|] == out.result.data.todo
      && out.result.data == Created(CommandTodo(todoId, userId, message, now))
      && OwnedBy(out.result.data.todo, userId)
      && out.result.data.todo.title == title
      && out.result.data.todo.description == ExtractDescription(message)
      && !out.result.data.todo.isCompleted
      && out.result.message == "Todo created: " + title
  {
    var ai := ProcessMessage(message, TodoMode, generate);
    var t1 := InsertEntry(t, LogEntry(historyId, userId, message, ai, now)).value;
    var t' := Command(t, true, userId, message, TodoMode, generate, historyId, todoId, now).1;
    assert t'.todos == t.todos + [CommandTodo(todoId, userId, message, now)];
    assert t'.todos[..|t.todos|] == t.todos;
  }

  /**
   * In todo mode, a list/todo or read/todo classification returns all of the
   * caller's todos, with no filtering by title, and a message whose number is
   * how many there are. Nothing but the history row is written.
   */
  lemma ListBranch(t: Tables, userId: Uuid, message: string, generate: Generator,
                   historyId: Uuid, todoId: Uuid, now: Time)
    requires ParseUserIntentTodo(message, false).action in {List, Read}
    requires ParseUserIntentTodo(message, false).entity == Entity.Todo
    requires Command(t, true, userId, message, TodoMode, generate, historyId, todoId, now).0.Done?
    ensures var (out, t') := Command(t, true, userId, message, TodoMode, generate, historyId, todoId, now);
      && t'.todos == t.todos
      && out.result.data == Listed(GetTodos(t, userId))
      && (forall row :: row in out.result.data.todos <==> row in t.todos && OwnedBy(row, userId))
      && exists digits ::
           && out.result.message == "You have " + digits + " todos."
           && (forall i :: 0 <= i < |digits| ==> '0' <= digits[i] <= '9')
           && DecimalValue(digits) == |out.result.data.todos|
  {
    var ai := ProcessMessage(message, TodoMode, generate);
    var t1 := InsertEntry(t, LogEntry(historyId, userId, message, ai, now)).value;
    GetTodosReadsTodos(t, t1, userId);
    var todos := GetTodos(t, userId);
    var (out, t') := Command(t, true, userId, message, TodoMode, generate, historyId, todoId, now);
    assert t' == t1 && out.result == CommandResult(ai.action, ai.entity, ListMessage(|todos|), Listed(todos));
    var digits := NatToString(|todos|);
    NatToStringRoundTrip(|todos|);
    assert out.result.message == "You have " + digits + " todos.";
    assert DecimalValue(digits) == |out.result.data.todos|;
  }

  /** The listing depends on the todos table alone. */
  lemma GetTodosReadsTodos(t: Tables, t': Tables, userId: Uuid)
    requires t.todos == t'.todos
    ensures GetTodos(t, userId) == GetTodos(t', userId)
  {
  }
}
