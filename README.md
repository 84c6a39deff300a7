# Todo list of the sample task bot

This model covers the per-user todo list that the sample Botkit skill
`skills/sample_taskbot.js` keeps in the framework's user storage. The store
maps a user id to a record `{id, tasks}`. Three message handlers work on it:

- the `tarefas`/`todo` handler lists the tasks;
- the `add (.*)` handler appends a task and saves the record;
- the `done (.*)` handler removes a task by its 1-based position.

The helper `generateTaskList` renders the enumerated list those replies use.

Files:

- `wrappers.dfy`, module `Wrappers`: the `Option` type.
- `decimal.dfy`, module `Decimal`: the decimal text of the positions and counts
  the bot prints (`NatToString`), and how the done handler classifies its
  index text (`ParseIndex`).
- `task_list.dfy`, module `TaskListText`: `generateTaskList` as a loop method
  (`GenerateTaskList`), proved equal to a recursive reference rendering
  (`TaskList`), and lemmas about that rendering.
- `taskbot.dfy`, module `Taskbot`: the user record, replies and reactions as
  values, and the handlers as functions of the store (`ListOutcome`,
  `AddOutcome`, `DoneOutcome`). The class `UserStore` holds the store as a
  `map` field. `Get` and `Save` read and write that field, and their
  `ensures` state the new map directly. `HandleList`, `HandleAdd` and
  `HandleDone` run the handlers against the field, and each is proved equal to
  its function. The file also holds the lemmas about the handlers, and a module
  `TaskbotSession` with a client session.

How the model treats the backend and the platform:

- A read from storage takes a `readFailed` input. The handlers never look at
  `err` (lines 29, 53, 92), so a failed read looks exactly like a missing record.
- A save takes the backend's outcome as a `saveError` input. Storage keys a record by its own `id`.
  The store invariant `WellKeyed` says that every record sits under its own id.
- A record without a `tasks` field has `tasks == None`. The list handler treats
  it as "no tasks". In the add handler (line 61) and the done handler (line 100)
  the source throws on such a record, and the model returns `Crashed`.
- Replies and the thumbs-up reaction are returned as a list of `Action` values.
  The Portuguese reply texts are constants copied from the source.
- The reply `'~' + item + '~'` concatenates a one-element array. JavaScript prints
  that array as its element, so the model uses the removed task itself.

A reusable task-list component might be expected to behave differently in four
places. The model follows the code in each of them:

- The code's done handler never saves.
- Read errors are swallowed, not reported.
- Lines are rendered as "> `k`) task" followed by a newline, not "k) task".
- A failed add reports the error text in a reply.

## Model

| member | source | states |
|---|---|---|
| `Decimal.NatToString` | skills/sample_taskbot.js:127 | the printed number `(t + 1)` is a non-empty run of digits without a leading zero |
| `Decimal.DigitsValueOfNatToString` | skills/sample_taskbot.js:127 | reading back the printed digits gives the number again |
| `Decimal.ParseIndexOfNatToString` | skills/sample_taskbot.js:85-90 | the text of a number n (or of -n) passes the numeric check and parses to n (or -n) |
| `Decimal.NatToStringInjective` | skills/sample_taskbot.js:127 | two different numbers never print the same |
| `Decimal.ParseIndexRejects` | skills/sample_taskbot.js:85-86 | text with a non-digit after the optional sign is classified as not a number |
| `Decimal.ParseIndex` | skills/sample_taskbot.js:85-90 | a definition without `ensures`: an optional sign followed by digits denotes that signed value, and any other text is not a number; its properties are carried by `ParseIndexOfNatToString` and `ParseIndexRejects` |
| `TaskListText.GenerateTaskList` | skills/sample_taskbot.js:122-132 | the loop's text equals the reference rendering `TaskList(tasks)`; it takes the tasks by value and changes nothing |
| `TaskListText.TaskList` | skills/sample_taskbot.js:124-130 | a definition without `ensures`: the reference rendering, one line per task appended after the lines before it; its properties are carried by `GenerateTaskList`, `TaskListIsLines`, `TaskListPrefix`, `TaskListAppend`, `TaskListEmpty` and `TaskListNewlines` |
| `TaskListText.TaskListIsLines` | skills/sample_taskbot.js:124-130 | the rendering is the concatenation, in stored order, of one line per task, the k-th being "> `k`) " + tasks[k-1] + newline |
| `TaskListText.TaskListPrefix` | skills/sample_taskbot.js:124-130 | the rendering of a list begins with the rendering of each of its prefixes |
| `TaskListText.TaskListAppend` | skills/sample_taskbot.js:124-130 | a new last task adds exactly one line, numbered one past the old length |
| `TaskListText.TaskListEmpty` | skills/sample_taskbot.js:124-130 | the rendering is the empty string exactly when there are no tasks |
| `TaskListText.LineNewline` | skills/sample_taskbot.js:127 | a task's line holds exactly one newline when the task holds none |
| `TaskListText.TaskListNewlines` | skills/sample_taskbot.js:124-130 | when no task contains a newline, the rendering holds exactly one newline per task |
| `Taskbot.ListOutcome` | skills/sample_taskbot.js:32-41 | one reply; it is the "no tasks" text exactly when there is no record, no `tasks` field or an empty list; otherwise header, rendering, footer |
| `Taskbot.AddOutcome` | skills/sample_taskbot.js:50-78 | a definition without `ensures`: the add handler's reply and resulting store; its properties are carried by `HandleAdd`, `AddKeepsWellKeyed`, `AddAppendsLast`, `AddTouchesOnlyItsUser`, `AddSaveErrorReported`, `AddCrashesOnMissingField`, `AddAfterFailedReadDropsList`, `AddThenList` and `AddsForDistinctUsersCommute` |
| `Taskbot.DoneOutcome` | skills/sample_taskbot.js:81-118 | a definition without `ensures`: the done handler's replies, in-memory record and removed task; its properties are carried by `HandleDone`, `DoneKeepsId`, `DoneRejectsNonNumber`, `DoneOutOfRange`, `DoneBoundaries`, `DoneInRange`, `DoneRemovesExactlyOne` and `DoneNeverPersists` |
| `Taskbot.CorrectedDoneUsers` | skills/sample_taskbot.js:104-113 | a definition without `ensures`: the store after the done handler with the missing save added; its properties are carried by `HandleDoneAndSave` and `CorrectedDonePersists` |
| `Taskbot.UserStore.Get` | skills/sample_taskbot.js:53 | returns the stored record, or nothing when the key is missing or the read failed |
| `Taskbot.UserStore.Save` | skills/sample_taskbot.js:63 | passes on the backend's error; on success writes the whole record under its own id, otherwise leaves the store as it was |
| `Taskbot.UserStore.HandleList` | skills/sample_taskbot.js:26-46 | the reply equals `ListOutcome` of the loaded record, computed through `GenerateTaskList`, and the store is unchanged |
| `Taskbot.UserStore.HandleAdd` | skills/sample_taskbot.js:50-78 | the reply and the new store equal `AddOutcome` of the old store, and the store invariant is kept |
| `Taskbot.UserStore.HandleDone` | skills/sample_taskbot.js:81-118 | reply, in-memory record and removed task equal `DoneOutcome`; the method has no `modifies`, so the store is unchanged |
| `Taskbot.UserStore.HandleDoneAndSave` | skills/sample_taskbot.js:104-113 | corrected done: same reply as the original, and the spliced record is saved when the save succeeds |
| `Taskbot.DoneKeepsId` | skills/sample_taskbot.js:92-98 | the record the done handler works on carries the requested user's id |
| `Taskbot.AddKeepsWellKeyed` | skills/sample_taskbot.js:55-63 | after an add, every record still sits under its own id |
| `Taskbot.AddAppendsLast` | skills/sample_taskbot.js:55-61 | a successful add yields the old tasks (empty without a record) followed by the new task as the last one, earlier tasks unchanged, and only the thumbs-up reaction |
| `Taskbot.AddTouchesOnlyItsUser` | skills/sample_taskbot.js:63 | whatever the backend does, no other user's record appears, disappears or changes |
| `Taskbot.AddSaveErrorReported` | skills/sample_taskbot.js:63-73 | on a save error the reply carries the error, no reaction is added, and the store is unchanged |
| `Taskbot.AddCrashesOnMissingField` | skills/sample_taskbot.js:55-61 | an add fails exactly when it loads a record without `tasks`, and then saves nothing |
| `Taskbot.AddAfterFailedReadDropsList` | skills/sample_taskbot.js:53-63 | since the read error is ignored, a failed read followed by a successful save leaves only the new task in the user's list |
| `Taskbot.AddThenList` | skills/sample_taskbot.js:26-78 | after a successful add, listing shows the old lines and then the new task on the last line |
| `Taskbot.AddsForDistinctUsersCommute` | skills/sample_taskbot.js:50-78 | successful adds for two different users give the same store in either order |
| `Taskbot.DoneRejectsNonNumber` | skills/sample_taskbot.js:85-86 | text that is not a number gets "must be a number", whatever the store holds, and no record is loaded |
| `Taskbot.DoneOutOfRange` | skills/sample_taskbot.js:90-101 | a number outside 1 to the number of tasks leaves the record as loaded and reports the current count; a missing record counts as 0 |
| `Taskbot.DoneBoundaries` | skills/sample_taskbot.js:90-101 | "0" and the number one past the last task are both out of range and report the current count |
| `Taskbot.SpliceOut` | skills/sample_taskbot.js:104 | removing position i keeps earlier tasks in place, moves later ones down by one, shortens by one and drops exactly one copy of tasks[i] |
| `Taskbot.DoneInRange` | skills/sample_taskbot.js:100-113 | for every index text that parses to n, with n from 1 to the number of tasks ("1", "01" and "+1" alike), the done outcome is the struck-through task, then the remaining list or "list is empty", with tasks[..n-1] + tasks[n..] in memory |
| `Taskbot.DoneRemovesExactlyOne` | skills/sample_taskbot.js:104-113 | done with any text that parses to n removes exactly task n, keeps the relative order of the others, and reports the removed task and the remaining list |
| `Taskbot.DoneNeverPersists` | skills/sample_taskbot.js:92-115 | on the store {u1: ["buy milk"]}, "done 1" reports the list empty, yet listing the unchanged store still shows the task |
| `Taskbot.CorrectedDonePersists` | skills/sample_taskbot.js:104-113 | with the save added, the remaining tasks are stored, every other user's record is unchanged, listing shows them, and the old last number is then out of range |
| `TaskbotSession.Session` | skills/sample_taskbot.js:26-118 | two adds, a listing, a done and an out-of-range done, after which the store still holds both tasks |
| `TaskbotSession.CorrectedSession` | skills/sample_taskbot.js:104-113 | the same session followed by the corrected done leaves only the second task stored |

## Findings

| source | as written | input that shows it | evidently intended | confidence | as-written member | corrected member |
|---|---|---|---|---|---|---|
| skills/sample_taskbot.js:104-113 | the done handler splices the task out of its loaded copy of the record and never calls `storage.users.save` | store {u1: {id: u1, tasks: ["buy milk"]}}, message "done 1": the bot replies "~buy milk~" and "Sua lista está vazia!", but the next listing still shows "buy milk" | save the spliced record, as the add handler does, so that the task is marked done | medium (a backend whose `get` hands out a shared object would keep the change in memory), not executed | `Taskbot.DoneNeverPersists` | `Taskbot.CorrectedDonePersists` |

## Left out

- Message routing (`controller.hears` and its patterns) is left out. The matched text `message.match[1]` is a given input string.
- Delivery of replies and reactions is left out, because `bot.reply` and `bot.api.reactions.add` are calls into the platform. They are returned as `Action` values. The reaction's channel and timestamp, copied from the message, are not modelled.
- Asynchronous callbacks are left out. Each storage read and write is a synchronous access to the `users` map.
- The storage backends named in the header comment are not part of this model. Their failures enter only as the `readFailed` and `saveError` inputs.
- Concurrency is left out. The read-modify-write race between two handlers for the same user is not modelled.
- Decimal.ParseIndex: JavaScript's `isNaN` and `parseInt` are modelled only on an optional sign followed by ASCII digits, and every other text is classified as not a number. For several texts the source instead goes on and removes a task, while the model replies "Precisa ser um número":
  - the empty text and whitespace-only text: `isNaN` is false there, `parseInt` gives NaN, and `splice(NaN, 1)` removes the first task;
  - "Infinity", "+Infinity" and "-Infinity": the same NaN path, so the first task is removed;
  - texts such as "1.5", "1e3" or " 2 " (a number with a fraction, an exponent or surrounding whitespace): `parseInt` stops at the first non-digit, so the task at that leading integer is removed, or the index is out of range;
  - hex texts such as "0x2": `parseInt` reads them as hexadecimal.
- Decimal.ParseIndex: integers are unbounded. The source loses precision in a `parseInt` result above 2^53, but any such index is out of range anyway.
- The loaded record is a value copy. Aliasing between it and an object cached inside the backend is not modelled (see Findings).
- A save error in `HandleDoneAndSave` changes nothing in the store. No reply for it is invented, because the source has no save there.
- `tasks` holding something other than an array (any value other than an array or a missing field) is not modelled.
