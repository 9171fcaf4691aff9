# next-ai-todo-panel, modelled in Dafny

This project models the core of a Next.js todo panel:

- **Intent classifier** (`AIService`). A user's chat message is lower-cased and stripped of `. , : ; ! ?`. Five ordered word-pattern rules then classify it as create, list, blocked update, blocked delete or read. Anything else gets a help reply. The reply is then paraphrased by a hosted text generator.
- **Todo service**. Owner-scoped create, list, get, update and delete on the `todos` table. The natural-language command path `processAICommand` authenticates and classifies, logs one chat-history row, and then creates a todo from the title and description it extracts, or lists the caller's todos.
- **Schema**. The `users`, `todos` and `ai_chat_history` tables, with their primary keys, the unique required e-mail, the foreign keys with `ON DELETE CASCADE`, and the not-null columns and defaults.
- **User service**. Copies a Supabase account into `users` unless its id is already there, and looks up a user by id.
- **Invoice form state**. The line-item list, with add, remove (never below one item) and edit that recomputes the amount. Also the total, the ordered validation on submit, and loading a stored invoice for editing.

Modules:

- `Wrappers`: `Option`.
- `Seqs`: filter and distinct keys.
- `Text`: ASCII lower-casing, JavaScript white space and `trim`, decimal numerals.
- `Intent`: lib/ai/huggingface.ts.
- `Extract`: the two regular expressions of the create branch.
- `Schema`: lib/db/schema.ts. The tables as a value `Tables`, inserts that the database may refuse, and the mutable `Database` class the services write to.
- `TodoService`: lib/services/todo-service.ts.
- `UserService`: lib/services/user-service.ts.
- `InvoiceForm`: components/invoices/invoice-form.tsx. The `Form` class holds `formData` and its handlers.

Operations that change the store are module-level methods that take a `Database` and update its tables (`CreateTodo`, `UpdateTodo`, `DeleteTodo`, `ProcessAICommand`, `CreateUserFromSupabase`). The form's handlers are methods of `InvoiceForm.Form`. Each one is proved equal to a pure function of the old state (`Command`, `CreateUser`, `UpdateRows`, `DeleteRows`, `RemoveAt`, `EditItem`, `FromInvoice`). The lemmas are stated about those functions.

Behaviour of the code that is easy to misread:

- **The description stops at the first comma.** The description regex is `description[:\s]+([^\n,]+)`. So "create a todo: Shopping description: buy pants, sweater and underwears" gives the description "buy pants", not the whole remainder (`Extract.ShoppingExtraction`).
- **A failed or empty generation gives a fixed reply.** The reply is "I understand your request.", not the rule's canned reply.
- **An unauthenticated call writes nothing.** It returns "Unauthorized" before the chat-history row is written.
- **The command path never touches todos in practice.** `processAICommand` calls `processMessage` without a mode, so the default chat mode applies, and that mode always answers unknown/unknown. The create and list branches are therefore unreachable as the code is wired (`TodoService.DefaultModeLeavesTodos`). The model takes the mode as a parameter so that those branches can be stated and proved too.

## Model

| member | source | states |
|---|---|---|
| `Intent.StripPunctuation` | lib/ai/huggingface.ts:49 | the cleaned text contains none of `. , : ; ! ?` and is no longer than the input |
| `Intent.StripAppend` | lib/ai/huggingface.ts:49 | the replacement works character by character: stripping a concatenation is the concatenation of the stripped parts |
| `Intent.TestIff` | lib/ai/huggingface.ts:53 | the scanner the rules use returns true exactly when `\b(A)\b.*\b(B)\b` matches: a whole word of A, and later on the same line a whole word of B |
| `Intent.ParseUserIntentTodo` | lib/ai/huggingface.ts:35-114 | with `restrict` every input gets unknown/unknown and the "only available in the todo component" reply; the entity is never `user`; without `restrict` the entity is unknown exactly when the reply is the help message |
| `Intent.RulePriority` | lib/ai/huggingface.ts:51-113 | each of the six outcomes (create, list, edit refused, delete refused, read, help) happens exactly when its pattern matches the cleaned text and no earlier rule's pattern does |
| `Intent.CreateRule` | lib/ai/huggingface.ts:52-61 | a create verb followed on the same line by a singular todo noun always gives create/todo with the create reply |
| `Intent.BlockedRules` | lib/ai/huggingface.ts:74-96 | an update or delete verb before a todo noun never yields read, always has the todo entity, and when not taken by create/list gives the exact refusal; the delete refusal only when the update rule did not match |
| `Intent.CleanDropsPunctuation` | lib/ai/huggingface.ts:47-49 | inserting one of `. , : ; ! ?` anywhere leaves the cleaned text unchanged |
| `Intent.PunctuationInsensitive` | lib/ai/huggingface.ts:47-49 | inserting one of `. , : ; ! ?` at any position leaves the classification unchanged |
| `Intent.CaseInsensitive` | lib/ai/huggingface.ts:47 | lower-casing the message first leaves the classification unchanged |
| `Intent.ListBeatsDelete` | lib/ai/huggingface.ts:62-96 | "list todos and delete todo" matches the delete pattern but is classified list/todo: the list rule comes first |
| `Intent.PluralFallsThrough` | lib/ai/huggingface.ts:86-113 | "delete my todos" matches no rule (only the list rule accepts the plural) and gets the help reply with unknown/unknown |
| `Intent.ParseUserIntentWhatsOnYourMind` | lib/ai/huggingface.ts:116-123 | every message gets unknown/unknown and the chat reply |
| `Intent.GenerateResponse` | lib/ai/huggingface.ts:13-33 | the result is never empty; it is "I understand your request." when the generator fails or returns nothing, and otherwise exactly the generated text |
| `Intent.ProcessMessage` | lib/ai/huggingface.ts:125-147 | todo mode keeps the todo parser's action and entity; chat mode always gives unknown/unknown; the message is non-empty and is `GenerateResponse` of that mode's own prompt and model: in todo mode the prompt built from the user message and the todo parser's reply, sent to "gpt2"; in chat mode the prompt built from the user message and the chat reply, sent to "fmicrosoft/DialoGPT-small" |
| `Extract.Group` | lib/services/todo-service.ts:109 | the trimmed capture contains no comma and no newline, and neither starts nor ends with white space |
| `Extract.DescriptionAheadIff` | lib/services/todo-service.ts:106 | the lookahead after the title succeeds exactly at the end of the input or before non-empty white space followed by "description:" in any letter case |
| `Extract.FirstTitleUnique` | lib/services/todo-service.ts:105-107 | the title match the backtracking matcher reports (leftmost start, longest `[:\s]+`, shortest lazy group) is unique |
| `Extract.TitleMatch` | lib/services/todo-service.ts:105-107 | the search returns the reported title match, and returns nothing only when the title regex matches nowhere |
| `Extract.TitleMatchIsFirst` | lib/services/todo-service.ts:105-107 | whenever the regex reports a match, the search returns exactly that match |
| `Extract.ExtractTitle` | lib/services/todo-service.ts:105-109 | the title is "Untitled Todo", or trimmed text holding no comma and no newline |
| `Extract.TitleOfFirstMatch` | lib/services/todo-service.ts:105-109 | the title is the trimmed capture of the match the regex reports |
| `Extract.UntitledWithoutMatch` | lib/services/todo-service.ts:109 | with no match anywhere the title is "Untitled Todo" |
| `Extract.CommaWithoutDescription` | lib/services/todo-service.ts:105-109 | with no "description:" in the message and a comma after every "todo", the title is "Untitled Todo" |
| `Extract.FirstDescriptionUnique` | lib/services/todo-service.ts:108 | the description match the regex reports (leftmost start, longest `[:\s]+`, longest group) is unique |
| `Extract.DescriptionMatch` | lib/services/todo-service.ts:108 | the search returns the reported description match, and returns nothing only when the description regex matches nowhere |
| `Extract.DescriptionMatchIsFirst` | lib/services/todo-service.ts:108 | whenever the regex reports a match, the search returns exactly that match |
| `Extract.ExtractDescription` | lib/services/todo-service.ts:108-112 | the description is absent exactly when the regex matches nowhere; otherwise it is trimmed text holding no comma and no newline |
| `Extract.DescriptionOfFirstMatch` | lib/services/todo-service.ts:108-112 | the description is the trimmed capture of the match the regex reports |
| `Extract.CreateATodoTitle` | lib/services/todo-service.ts:105-109 | "create a todo" gets the title "Untitled Todo" |
| `Extract.CreateATodoDescription` | lib/services/todo-service.ts:108-112 | "create a todo" gets no description |
| `Extract.ShoppingExtraction` | lib/services/todo-service.ts:105-112 | "create a todo: Shopping description: buy pants, sweater and underwears" gets the title "Shopping" and the description "buy pants" |
| `Schema.InsertUser` | lib/db/schema.ts:13-20 | a user row is accepted exactly when both its id and its e-mail are unused, and then exactly that row is appended |
| `Schema.InsertTodo` | lib/db/schema.ts:23-32 | a todo row is accepted exactly when its id is unused and its owner is null or an existing user, and then exactly that row is appended |
| `Schema.InsertEntry` | lib/db/schema.ts:35-45 | a chat-history row is accepted exactly when its id is unused and its owner is null or an existing user, and then exactly that row is appended |
| `Schema.InsertUserConsistent` | lib/db/schema.ts:13-20 | an accepted user insert keeps unique ids, unique e-mails and both foreign keys |
| `Schema.InsertTodoConsistent` | lib/db/schema.ts:23-32 | an accepted todo insert keeps every constraint |
| `Schema.InsertEntryConsistent` | lib/db/schema.ts:35-45 | an accepted chat-history insert keeps every constraint |
| `Schema.DeleteUserCascades` | lib/db/schema.ts:25-37 | deleting a user removes exactly their todos and chat-history rows, keeps every other row, and keeps every constraint |
| `Schema.Database.constructor` | lib/db/schema.ts:13-45 | the store starts empty and consistent |
| `Schema.Database.AddUser` | lib/db/schema.ts:13-20 | the store changes as `InsertUser` says, reports whether it accepted the row, and stays consistent |
| `Schema.Database.AddTodo` | lib/db/schema.ts:23-32 | the store changes as `InsertTodo` says, reports whether it accepted the row, and stays consistent |
| `Schema.Database.AddEntry` | lib/db/schema.ts:35-45 | the store changes as `InsertEntry` says, reports whether it accepted the row, and stays consistent |
| `TodoService.CreateTodo` | lib/services/todo-service.ts:22-33 | inserts the new row and returns it, or changes nothing and returns nothing when the database refuses it |
| `TodoService.CreatedTodo` | lib/services/todo-service.ts:22-33 | a created todo is the only row added; it has the given id, owner, title, description and due date, and is not completed |
| `TodoService.SortNewestFirst` | lib/services/todo-service.ts:40 | the result is ordered by creation time, newest first, and is a permutation of the input |
| `TodoService.GetTodos` | lib/services/todo-service.ts:35-41 | the result holds exactly the caller's rows, each as often as stored, newest first |
| `TodoService.GetTodo` | lib/services/todo-service.ts:43-49 | a row is returned only if both its id and its owner match; nothing is returned exactly when no row matches both |
| `TodoService.UpdateOnlyTarget` | lib/services/todo-service.ts:51-62 | only the row matching id and owner changes; the supplied fields are set, the others kept, `updatedAt` is now, and id, owner and creation time stay |
| `TodoService.UpdateMismatchIsNoOp` | lib/services/todo-service.ts:56-59 | when no row matches both id and owner the table is unchanged |
| `TodoService.UpdateConsistent` | lib/services/todo-service.ts:51-62 | an update keeps every constraint |
| `TodoService.FirstUpdated` | lib/services/todo-service.ts:56-61 | the returned row is an updated matching row, and nothing is returned exactly when no row matches |
| `TodoService.UpdateTodo` | lib/services/todo-service.ts:51-62 | the todos become `UpdateRows` of the old ones, the other tables stay, and the store stays consistent |
| `TodoService.DeleteOnlyTarget` | lib/services/todo-service.ts:64-68 | exactly the rows matching both id and owner are removed; a mismatch removes nothing; the constraints still hold |
| `TodoService.DeleteTodo` | lib/services/todo-service.ts:64-68 | the todos become `DeleteRows` of the old ones, the other tables stay, and the store stays consistent |
| `TodoService.ProcessAICommand` | lib/services/todo-service.ts:71-134 | the outcome and the new store are those of `Command` on the old store, and the store stays consistent |
| `TodoService.UnauthorizedWritesNothing` | lib/services/todo-service.ts:81-88 | without an authenticated user the result is unknown/unknown, "Unauthorized", null data, and no table changes |
| `TodoService.OneHistoryRow` | lib/services/todo-service.ts:90-113 | once the history row of an authenticated call is accepted, exactly that one row is appended, with the caller's id, the raw message and the generated reply, even when the todo insert after it is refused (which then leaves the todos as they were); the users do not change |
| `TodoService.DefaultModeLeavesTodos` | lib/services/todo-service.ts:90-133 | in the default chat mode the todos table never changes, the result is unknown/unknown with no todo data, and an authenticated call's reply is the generated chat message |
| `TodoService.PassThrough` | lib/services/todo-service.ts:99-133 | in todo mode, any classification other than create, list or read of a todo (the refused update and delete, help, anything unrecognised) writes no todo, appends only its history row, and returns the classifier's action, entity and reply with no data |
| `TodoService.CreateBranch` | lib/services/todo-service.ts:102-119 | a create/todo command adds exactly one todo, owned by the caller, with the extracted title and description, not completed, returned as data with "Todo created: " + title |
| `TodoService.ListBranch` | lib/services/todo-service.ts:120-128 | a list/todo or read/todo command returns all of the caller's todos and writes no todo; the message "You have N todos." carries their number in decimal |
| `UserService.MetadataField` | lib/services/user-service.ts:23-30 | the field is the metadata value exactly when metadata exists and the value is a non-empty string, and null otherwise |
| `UserService.FindUser` | lib/services/user-service.ts:37 | the result is the first row with the id, and nothing exactly when no row has it |
| `UserService.GetUser` | lib/services/user-service.ts:36-38 | a returned row is stored and has the id; nothing is returned exactly when no row has the id |
| `UserService.CreateUserFromSupabase` | lib/services/user-service.ts:7-34 | the result and the new store are those of `CreateUser` on the old store, and the store stays consistent |
| `UserService.ExistingUserUnchanged` | lib/services/user-service.ts:9-16 | an account whose id is stored gets a stored row with that id back, and the tables do not change |
| `UserService.NewUserInserted` | lib/services/user-service.ts:18-31 | for a new id exactly one row is appended, with the account's id, its e-mail or "", and name and avatar from truthy metadata or null; the insert fails, changing nothing, exactly when the e-mail is taken |
| `UserService.GetUserAppend` | lib/services/user-service.ts:36-38 | after a new user is appended, looking up its id finds that user |
| `UserService.CreateUserIdempotent` | lib/services/user-service.ts:7-34 | a second call with the same account, at any later time, returns the same result and leaves the tables as the first call did |
| `InvoiceForm.TotalConcat` | components/invoices/invoice-form.tsx:106 | the total of two item lists one after the other is the sum of their totals |
| `InvoiceForm.TotalRemove` | components/invoices/invoice-form.tsx:98-106 | removing item `i` lowers the total by exactly its amount |
| `InvoiceForm.TotalReplace` | components/invoices/invoice-form.tsx:75-106 | replacing item `i` changes the total by exactly the change in its amount |
| `InvoiceForm.RemoveAt` | components/invoices/invoice-form.tsx:100 | for an index in range, one item fewer, and the items before it and after it keep their order; otherwise the list is unchanged |
| `InvoiceForm.EditItem` | components/invoices/invoice-form.tsx:75-87 | only the written field changes, except that after writing the quantity or the unit price the amount is their product; a description edit keeps the amount |
| `InvoiceForm.ValidItems` | components/invoices/invoice-form.tsx:135-137 | exactly the items whose trimmed description is non-empty and whose quantity and unit price are positive are kept |
| `InvoiceForm.Submit` | components/invoices/invoice-form.tsx:144-147 | a saved form is the input with its items replaced by the valid ones, and at least one item is left |
| `InvoiceForm.SubmitReportsFirstFailure` | components/invoices/invoice-form.tsx:109-142 | submitting saves exactly when all six checks pass; otherwise the reported error is that of the first failing check, in the source's order |
| `InvoiceForm.BlankNumberReportedFirst` | components/invoices/invoice-form.tsx:113-116 | a blank invoice number is reported as "Invoice number is required", whatever else is wrong |
| `InvoiceForm.BlankItemsDropped` | components/invoices/invoice-form.tsx:135-137 | items added by "add item" and left untouched are never valid, so submission drops them |
| `InvoiceForm.ValidItemsKept` | components/invoices/invoice-form.tsx:135-147 | when the fields are filled in and every item is valid, the saved data is the form data unchanged |
| `InvoiceForm.LoadItem` | components/invoices/invoice-form.tsx:62-68 | a loaded item keeps its id; a missing or zero quantity becomes 1; a missing unit price or amount becomes 0; a missing or empty description becomes "" and any other description is kept |
| `InvoiceForm.FromInvoice` | components/invoices/invoice-form.tsx:51-72 | a stored invoice with items keeps their number and order; one without items gets the single blank item; a missing status becomes draft; the invoice number, client name, client email and notes are kept when present and non-empty and are "" otherwise; each date is the day part of the stored value, or "" when it is missing or empty |
| `InvoiceForm.LoadedItems` | components/invoices/invoice-form.tsx:61-69 | no loaded item has quantity 0, and the loaded items keep their ids |
| `InvoiceForm.Form.constructor` | components/invoices/invoice-form.tsx:39-48 | the form starts blank, with one blank item |
| `InvoiceForm.Form.Load` | components/invoices/invoice-form.tsx:51-72 | the form data becomes `FromInvoice` of the stored invoice, with at least one item |
| `InvoiceForm.Form.AddItem` | components/invoices/invoice-form.tsx:90-95 | exactly the blank item is appended, everything else is unchanged, and the total stays the same |
| `InvoiceForm.Form.RemoveItem` | components/invoices/invoice-form.tsx:98-103 | with two or more items the item at the index is removed and the total drops by its amount; with one item nothing changes, so the list is never empty |
| `InvoiceForm.Form.UpdateItemAmount` | components/invoices/invoice-form.tsx:75-87 | only item `index` changes, to `EditItem` of it; the total moves by the change in that item's amount |
| `InvoiceForm.Total` | components/invoices/invoice-form.tsx:106 | the total of items whose amounts are all non-negative is non-negative |
| `Schema.DeleteUser` | lib/db/schema.ts:25-37 | afterwards the user is gone, and no todo row and no chat-history row refers to them |
| `TodoService.Command` | lib/services/todo-service.ts:71-134 | the users never change; an unauthenticated call changes nothing; the history is unchanged or gains exactly the one row for this message and reply; the todos are unchanged or gain exactly the one row built from the message, and only when the history row was written |
| `UserService.CreateUser` | lib/services/user-service.ts:7-34 | a returned user has the given id and is in the users table; the todos and history never change; the users are unchanged or gain exactly the new user built from the given account |
| `TodoService.UpdateRows` | lib/services/todo-service.ts:56-60 | the number of rows is kept, and every row keeps its id, owner and creation time |
| `TodoService.DeleteRows` | lib/services/todo-service.ts:65-67 | a row remains exactly when it was there and is not the caller's row with the given id; no rows are added |
| `Text.Trim` | components/invoices/invoice-form.tsx:113 | the trimmed string is a slice of the input with only white space around it, and neither starts nor ends with white space |
| `Text.NatToStringRoundTrip` | lib/services/todo-service.ts:126 | the count printed in a message is all digits, and reading them back gives the number |

## Left out

- The hosted text generator is a parameter, a function from prompt and model name to a text or a failure. The network call, its sampling parameters and its error logging are not modelled.
- Authentication is a boolean parameter. As in the source, `processAICommand` writes with the `userId` it is given, not with the identity the authentication returns.
- Generated ids and `defaultNow` timestamps are parameters. Timestamps are integers. Nullable `createdAt` columns are always filled, because the default always applies on insert.
- A `uuid` column rejects strings that are not UUIDs, so `createUserFromSupabase` with an id of "" would fail. The model accepts any string as an id.
- Database failures other than the key, unique and foreign-key constraints are not modelled: lost connections and the like. A refused insert is `None`, or `Rejected` in the outcome of `processAICommand`, where the source throws.
- `TodoService.UpdateTodo`: the model takes the declared `UpdateTodoData` (title, description, completion flag, due date), so an update can only change those columns and `updatedAt`. The one caller, app/api/todos/[id]/route.ts:47-48, passes the parsed request body through unchecked, and `.set({ ...data, updatedAt: new Date() })` writes every column the body names. A body can therefore rewrite a row's owner, id or creation time, or set a column to null, and a key or foreign-key clash then throws. `TodoService.UpdateRows` and `TodoService.UpdateConsistent` keep the id, owner, creation time and consistency only for the declared fields; the unchecked spread is not modelled.
- `TodoService.GetTodos`: rows with equal creation times may come back in any order, as in SQL. The contract fixes only the order by time and the multiset of rows.
- `toLowerCase` is modelled for ASCII letters only; every other character is left unchanged. This differs from JavaScript for the few non-ASCII characters that lower-case to ASCII: U+212A (Kelvin sign) lower-cases to "k" and U+0130 to "i" followed by U+0307. So "create a tas\u212A" is a create-todo request in the source, but the model reads it as help. Case-insensitive regex matching (`i` without `u`) is modelled the same way.
- Invoice quantities, prices and amounts are exact reals. JavaScript floating-point rounding, NaN, infinities and `Number(...)` conversion of text are not modelled.
- The day part of a stored date, `new Date(x).toISOString().split('T')[0]`, is a function parameter of `FromInvoice`. Date formatting is not modelled.
- `InvoiceForm.Form.UpdateItemAmount` requires an index inside the list. The form only calls it for rendered rows, and an out-of-range index in the source would create a malformed item. The optional `id` of an item is never edited, so it is not one of the editable fields.
- A stored invoice's fields are typed: text as optional strings, numbers as optional reals, status as one of the four values. Other JavaScript values (numbers as text, unknown statuses) are not modelled.
- The `jsonb` metadata column is an optional string. Non-string `user_metadata` values are not modelled.
- Toast messages, rendering, route handlers and the test table are not part of this model. Neither is the `relations` helper, which declares no constraint of its own. Validation errors are returned as values.
- There is no concurrency. Each call runs alone, and there are no transactions.
