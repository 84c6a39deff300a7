/**
  The per-user todo list of the sample task bot: a store of user records
  keyed by user id, and the three message handlers that read it, extend it
  and remove from it. Replies and reactions are returned as values; the
  storage backend is the `UserStore` class, whose reads and writes take the
  backend's outcome (a failed read, a save error) as an input.
 */
module Taskbot {
  import opened Wrappers
  import opened Decimal
  import opened TaskListText

  /** A stored user; `tasks` is None when the record has no `tasks` field. */
  datatype UserRecord = UserRecord(id: string, tasks: Option<seq<string>>)

  /** What a handler asks the chat platform to do: send a reply, or add a reaction to the message. */
  datatype Action = Say(text: string) | React(emoji: string)

  /** A handler's visible effect, or the exception it throws reading `tasks` of a record that has none. */
  datatype Response = Replied(actions: seq<Action>) | Crashed

  const NoTasksReply := "Não há tarefas em sua lista. Digite: `add _tarefa_` para adicionar algo."
  const ListHeader := "Aqui está sua lista de tarefas: \n"
  const ListFooter := "Digite: `done _número da tarefa_` para marcar como completada."
  const AddErrorPrefix := "Ocorreu um erro ao adicionar sua tarefa: "
  const ThumbsUp := "thumbsup::skin-tone-3"
  const NotANumberReply := "Precisa ser um número"
  const OutOfRangePrefix := "Desculpe, esse número não existe na lista. No momento existem apenas "
  const OutOfRangeSuffix := " items na sua lista."
  const RemainingHeader := "Ainda existem tarefas na sua lista:\n"
  const EmptyListReply := "Sua lista está vazia!"

  function ListReply(tasks: seq<string>): (text: string) {
    ListHeader + TaskList(tasks) + ListFooter
  }

  function OutOfRangeReply(count: nat): (text: string) {
    OutOfRangePrefix + NatToString(count) + OutOfRangeSuffix
  }

  /** The strikethrough reply for a removed task (a one-element array prints as its element). */
  function StrikeReply(task: string): (text: string) {
    "~" + task + "~"
  }

  function RemainingReply(tasks: seq<string>): (text: string) {
    RemainingHeader + TaskList(tasks)
  }

  /** The store keeps every record under its own `id`, the key `save` writes it under. */
  predicate WellKeyed(users: map<string, UserRecord>) {
    forall id :: id in users ==> users[id].id == id
  }

  /**
    What `storage.users.get` hands its callback: the record, or nothing when
    there is none or the read failed (the handlers never look at the error).
   */
  function Loaded(users: map<string, UserRecord>, id: string, readFailed: bool): (user: Option<UserRecord>) {
    if !readFailed && id in users then Some(users[id]) else None
  }

  /** The loaded record, or the fresh `{id, tasks: []}` the add and done handlers build when there is none. */
  function RecordOrNew(user: Option<UserRecord>, id: string): (record: UserRecord) {
    if user.None? then UserRecord(id, Some([])) else user.value
  }

  /** The list handler's test `!user || !user.tasks || user.tasks.length == 0`. */
  predicate HasNoTasks(user: Option<UserRecord>) {
    user.None? || user.value.tasks.None? || user.value.tasks.value == []
  }

  // ---------------------------------------------------------------------
  // The handlers as functions of the store

  /** The list handler's reply for the loaded record. */
  function ListOutcome(user: Option<UserRecord>): (r: Response)
    ensures r.Replied? && |r.actions| == 1 && r.actions[0].Say?
    ensures r.actions[0] == Say(NoTasksReply) <==> HasNoTasks(user)
    ensures !HasNoTasks(user) ==> r.actions[0].text == ListReply(user.value.tasks.value)
  {
    if HasNoTasks(user) then
      Replied([Say(NoTasksReply)])
    else
      var text := ListReply(user.value.tasks.value);
      assert text[0] == 'A';
      Replied([Say(text)])
  }

  datatype AddEffect = AddEffect(response: Response, users: map<string, UserRecord>)

  /** The add handler: load, create if missing, push the new task, save the whole record. */
  function AddOutcome(users: map<string, UserRecord>, id: string, newTask: string,
                      readFailed: bool, saveError: Option<string>): (e: AddEffect)
  {
    var user := RecordOrNew(Loaded(users, id, readFailed), id);
    if user.tasks.None? then
      AddEffect(Crashed, users)
    else
      var updated := user.(tasks := Some(user.tasks.value + [newTask]));
      if saveError.Some? then
        AddEffect(Replied([Say(AddErrorPrefix + saveError.value)]), users)
      else
        AddEffect(Replied([React(ThumbsUp)]), users[updated.id := updated])
  }

  /** `working` is the handler's in-memory record; `removed` the task `splice` took out of it. */
  datatype DoneEffect = DoneEffect(response: Response, working: Option<UserRecord>, removed: Option<string>)

  /** The done handler: classify the index, load, check bounds, splice one task out; nothing is saved. */
  function DoneOutcome(users: map<string, UserRecord>, id: string, text: string, readFailed: bool): (e: DoneEffect) {
    match ParseIndex(text)
    case None => DoneEffect(Replied([Say(NotANumberReply)]), None, None)
    case Some(n) =>
      var index := n - 1;
      var user := RecordOrNew(Loaded(users, id, readFailed), id);
      if user.tasks.None? then
        DoneEffect(Crashed, Some(user), None)
      else
        var tasks := user.tasks.value;
        if index < 0 || index >= |tasks| then
          DoneEffect(Replied([Say(OutOfRangeReply(|tasks|))]), Some(user), None)
        else
          var rest := tasks[..index] + tasks[index + 1..];
          var summary := if |rest| > 0 then RemainingReply(rest) else EmptyListReply;
          DoneEffect(Replied([Say(StrikeReply(tasks[index])), Say(summary)]),
                     Some(user.(tasks := Some(rest))), Some(tasks[index]))
  }

  /** The store after the done handler with the missing `save` of the spliced record added. */
  function CorrectedDoneUsers(users: map<string, UserRecord>, id: string, text: string,
                              readFailed: bool, saveError: Option<string>): (after: map<string, UserRecord>)
  {
    var e := DoneOutcome(users, id, text, readFailed);
    if e.removed.Some? && e.working.Some? && saveError.None? then users[e.working.value.id := e.working.value]
    else users
  }

  // ---------------------------------------------------------------------
  // The store and the handlers as they run against it

  /** `controller.storage.users`: user records keyed by user id. */
  class UserStore {
    var users: map<string, UserRecord>

    ghost predicate Valid()
      reads this
    {
      WellKeyed(users)
    }

    constructor ()
      ensures Valid() && users == map[]
    {
      users := map[];
    }

    /** `storage.users.get(id, cb)`, with the backend's read failure given as `readFailed`. */
    method Get(id: string, readFailed: bool) returns (user: Option<UserRecord>)
      ensures user == Loaded(users, id, readFailed)
      ensures user.Some? ==> id in users && user.value == users[id]
    {
      if !readFailed && id in users {
        user := Some(users[id]);
      } else {
        user := None;
      }
    }

    /** `storage.users.save(record, cb)`: writes the record under its own id unless the backend reports `failure`. */
    method Save(record: UserRecord, failure: Option<string>) returns (err: Option<string>)
      modifies this
      ensures err == failure
      ensures users == if failure.None? then old(users)[record.id := record] else old(users)
    {
      err := failure;
      if failure.None? {
        users := users[record.id := record];
      }
    }

    /** The `tarefas`/`todo` handler. */
    method HandleList(id: string, readFailed: bool) returns (r: Response)
      ensures r == ListOutcome(Loaded(users, id, readFailed))
    {
      var user := Get(id, readFailed);
      if user.None? || user.value.tasks.None? || |user.value.tasks.value| == 0 {
        r := Replied([Say(NoTasksReply)]);
      } else {
        var list := GenerateTaskList(user.value.tasks.value);
        r := Replied([Say(ListHeader + list + ListFooter)]);
      }
    }

    /** The `add (.*)` handler, `newTask` being the matched text. */
    method HandleAdd(id: string, newTask: string, readFailed: bool, saveError: Option<string>)
      returns (r: Response)
      requires Valid()
      modifies this
      ensures Valid()
      ensures AddEffect(r, users) == AddOutcome(old(users), id, newTask, readFailed, saveError)
    {
      var user := Get(id, readFailed);
      if user.None? {
        user := Some(UserRecord(id, Some([])));
      }
      var record := user.value;
      if record.tasks.None? {
        r := Crashed;
        return;
      }
      record := record.(tasks := Some(record.tasks.value + [newTask]));
      var err := Save(record, saveError);
      if err.Some? {
        r := Replied([Say(AddErrorPrefix + err.value)]);
      } else {
        r := Replied([React(ThumbsUp)]);
      }
    }

    /** The `done (.*)` handler as written: it changes only its in-memory copy of the record. */
    method HandleDone(id: string, text: string, readFailed: bool)
      returns (r: Response, working: Option<UserRecord>, removed: Option<string>)
      ensures DoneEffect(r, working, removed) == DoneOutcome(users, id, text, readFailed)
    {
      var number := ParseIndex(text);
      if number.None? {
        r, working, removed := Replied([Say(NotANumberReply)]), None, None;
        return;
      }
      var index := number.value - 1;
      var user := Get(id, readFailed);
      if user.None? {
        user := Some(UserRecord(id, Some([])));
      }
      working, removed := user, None;
      var record := user.value;
      if record.tasks.None? {
        r := Crashed;
        return;
      }
      var tasks := record.tasks.value;
      if index < 0 || index >= |tasks| {
        r := Replied([Say(OutOfRangePrefix + NatToString(|tasks|) + OutOfRangeSuffix)]);
      } else {
        var item := tasks[index];
        tasks := tasks[..index] + tasks[index + 1..];
        working, removed := Some(record.(tasks := Some(tasks))), Some(item);
        var summary;
        if |tasks| > 0 {
          var list := GenerateTaskList(tasks);
          summary := RemainingHeader + list;
        } else {
          summary := EmptyListReply;
        }
        r := Replied([Say("~" + item + "~"), Say(summary)]);
      }
    }

    /** The done handler with the evidently intended `save` of the spliced record. */
    method HandleDoneAndSave(id: string, text: string, readFailed: bool, saveError: Option<string>)
      returns (r: Response)
      requires Valid()
      modifies this
      ensures Valid()
      ensures r == DoneOutcome(old(users), id, text, readFailed).response
      ensures users == CorrectedDoneUsers(old(users), id, text, readFailed, saveError)
    {
      var working, removed;
      r, working, removed := HandleDone(id, text, readFailed);
      if removed.Some? && working.Some? {
        DoneKeepsId(users, id, text, readFailed);
        var _ := Save(working.value, saveError);
      }
    }
  }

  // ---------------------------------------------------------------------
  // Properties of the handlers

  /** The in-memory record the done handler works on is keyed like the stored one. */
  lemma DoneKeepsId(users: map<string, UserRecord>, id: string, text: string, readFailed: bool)
    requires WellKeyed(users)
    ensures var e := DoneOutcome(users, id, text, readFailed);
            e.working.Some? ==> e.working.value.id == id
  {
  }

  /** Adding keeps every record under its own id. */
  lemma AddKeepsWellKeyed(users: map<string, UserRecord>, id: string, newTask: string,
                          readFailed: bool, saveError: Option<string>)
    requires WellKeyed(users)
    ensures WellKeyed(AddOutcome(users, id, newTask, readFailed, saveError).users)
  {
  }

  /**
    A successful add on a readable store appends the new task as the last
    one, after the old tasks (none when the user had no record), and answers
    with the thumbs-up reaction only.
   */
  lemma AddAppendsLast(users: map<string, UserRecord>, id: string, newTask: string)
    requires WellKeyed(users)
    requires id in users ==> users[id].tasks.Some?
    ensures var e := AddOutcome(users, id, newTask, false, None);
            var old_ := if id in users then users[id].tasks.value else [];
            && e.response == Replied([React(ThumbsUp)])
            && id in e.users && e.users[id].id == id
            && e.users[id].tasks == Some(old_ + [newTask])
            && (forall k :: 0 <= k < |old_| ==> e.users[id].tasks.value[k] == old_[k])
            && e.users[id].tasks.value[|old_|] == newTask
  {
  }

  /** Whatever the backend does, an add changes no other user's record. */
  lemma AddTouchesOnlyItsUser(users: map<string, UserRecord>, id: string, newTask: string,
                              readFailed: bool, saveError: Option<string>, other: string)
    requires WellKeyed(users) && other != id
    ensures var after := AddOutcome(users, id, newTask, readFailed, saveError).users;
            (other in after <==> other in users) && (other in users ==> after[other] == users[other])
  {
  }

  /** A save error is passed on in the reply, no reaction is added, and the store is as before. */
  lemma AddSaveErrorReported(users: map<string, UserRecord>, id: string, newTask: string,
                             readFailed: bool, err: string)
    requires Loaded(users, id, readFailed).Some? ==> Loaded(users, id, readFailed).value.tasks.Some?
    ensures var e := AddOutcome(users, id, newTask, readFailed, Some(err));
            e.response == Replied([Say(AddErrorPrefix + err)]) && e.users == users
            && forall i :: 0 <= i < |e.response.actions| ==> !e.response.actions[i].React?
  {
  }

  /** An add crashes exactly when it loads a record without a `tasks` field, and then saves nothing. */
  lemma AddCrashesOnMissingField(users: map<string, UserRecord>, id: string, newTask: string,
                                 readFailed: bool, saveError: Option<string>)
    ensures var e := AddOutcome(users, id, newTask, readFailed, saveError);
            (e.response == Crashed <==> !readFailed && id in users && users[id].tasks.None?)
            && (e.response == Crashed ==> e.users == users)
  {
  }

  /**
    Because the read error is ignored, an add whose read fails and whose
    save succeeds replaces the user's whole list by the new task alone.
   */
  lemma AddAfterFailedReadDropsList(users: map<string, UserRecord>, id: string, newTask: string)
    requires WellKeyed(users)
    ensures var after := AddOutcome(users, id, newTask, true, None).users;
            id in after && after[id] == UserRecord(id, Some([newTask]))
  {
    assert [] + [newTask] == [newTask];
  }

  /** After a successful add, listing shows the old lines and then the new task, numbered last. */
  lemma AddThenList(users: map<string, UserRecord>, id: string, newTask: string)
    requires WellKeyed(users)
    requires id in users ==> users[id].tasks.Some?
    ensures var old_ := if id in users then users[id].tasks.value else [];
            var after := AddOutcome(users, id, newTask, false, None).users;
            ListOutcome(Loaded(after, id, false))
              == Replied([Say(ListHeader + TaskList(old_) + Line(|old_| + 1, newTask) + ListFooter)])
  {
    var old_ := if id in users then users[id].tasks.value else [];
    AddAppendsLast(users, id, newTask);
    TaskListAppend(old_, newTask);
    var after := AddOutcome(users, id, newTask, false, None).users;
    assert !HasNoTasks(Loaded(after, id, false));
    assert ListReply(old_ + [newTask]) == ListHeader + TaskList(old_) + Line(|old_| + 1, newTask) + ListFooter;
  }

  /** Successful adds for two different users give the same store in either order. */
  lemma AddsForDistinctUsersCommute(users: map<string, UserRecord>, a: string, ta: string,
                                    b: string, tb: string)
    requires WellKeyed(users) && a != b
    ensures var ab := AddOutcome(AddOutcome(users, a, ta, false, None).users, b, tb, false, None).users;
            var ba := AddOutcome(AddOutcome(users, b, tb, false, None).users, a, ta, false, None).users;
            ab == ba
  {
  }

  /** Text that is not a number gets "must be a number", whatever the store holds, and nothing is loaded. */
  lemma DoneRejectsNonNumber(users: map<string, UserRecord>, id: string, text: string, readFailed: bool)
    requires ParseIndex(text).None?
    ensures DoneOutcome(users, id, text, readFailed) == DoneEffect(Replied([Say(NotANumberReply)]), None, None)
  {
  }

  /**
    A number outside 1..|tasks| leaves the tasks as they are and reports
    their count; a missing record counts as no tasks.
   */
  lemma DoneOutOfRange(users: map<string, UserRecord>, id: string, text: string, readFailed: bool)
    requires ParseIndex(text).Some?
    requires Loaded(users, id, readFailed).Some? ==> Loaded(users, id, readFailed).value.tasks.Some?
    requires var tasks := RecordOrNew(Loaded(users, id, readFailed), id).tasks.value;
             ParseIndex(text).value < 1 || ParseIndex(text).value > |tasks|
    ensures var user := RecordOrNew(Loaded(users, id, readFailed), id);
            var e := DoneOutcome(users, id, text, readFailed);
            e == DoneEffect(Replied([Say(OutOfRangeReply(|user.tasks.value|))]), Some(user), None)
  {
  }

  /** "0" and the number one past the last task are both out of range and report the current count. */
  lemma DoneBoundaries(users: map<string, UserRecord>, id: string)
    requires id in users ==> users[id].tasks.Some?
    ensures var count := if id in users then |users[id].tasks.value| else 0;
            && DoneOutcome(users, id, "0", false).response == Replied([Say(OutOfRangeReply(count))])
            && DoneOutcome(users, id, NatToString(count + 1), false).response
               == Replied([Say(OutOfRangeReply(count))])
  {
    var count := if id in users then |users[id].tasks.value| else 0;
    ParseIndexOfNatToString(0);
    ParseIndexOfNatToString(count + 1);
    assert NatToString(0) == "0";
  }

  /** Splicing position i out keeps the tasks before it, moves the later ones down and drops exactly one copy. */
  lemma SpliceOut(tasks: seq<string>, i: nat)
    requires i < |tasks|
    ensures var rest := tasks[..i] + tasks[i + 1..];
            && |rest| == |tasks| - 1
            && (forall k :: 0 <= k < i ==> rest[k] == tasks[k])
            && (forall k :: i <= k < |rest| ==> rest[k] == tasks[k + 1])
            && multiset(rest) + multiset{tasks[i]} == multiset(tasks)
  {
    assert tasks == tasks[..i] + [tasks[i]] + tasks[i + 1..];
  }

  /** The done handler on any index text that denotes a number n in 1..|tasks| of a readable record. */
  lemma DoneInRange(users: map<string, UserRecord>, id: string, text: string, n: nat)
    requires ParseIndex(text) == Some(n)
    requires id in users && users[id].tasks.Some?
    requires 1 <= n <= |users[id].tasks.value|
    ensures var tasks := users[id].tasks.value;
            var rest := tasks[..n - 1] + tasks[n..];
            DoneOutcome(users, id, text, false)
              == DoneEffect(Replied([Say(StrikeReply(tasks[n - 1])),
                                     Say(if |rest| > 0 then RemainingReply(rest) else EmptyListReply)]),
                            Some(users[id].(tasks := Some(rest))), Some(tasks[n - 1]))
  {
  }

  /**
    A number n in 1..|tasks| removes exactly task n: the tasks before it keep
    their places, the ones after it move down by one, it is reported struck
    through, and the reply goes on with the remaining list or "list is empty".
   */
  lemma DoneRemovesExactlyOne(users: map<string, UserRecord>, id: string, text: string, n: nat)
    requires ParseIndex(text) == Some(n)
    requires id in users && users[id].tasks.Some?
    requires 1 <= n <= |users[id].tasks.value|
    ensures var tasks := users[id].tasks.value;
            var e := DoneOutcome(users, id, text, false);
            && e.removed == Some(tasks[n - 1])
            && e.working.Some? && e.working.value.id == users[id].id
            && e.working.value.tasks.Some?
            && var rest := e.working.value.tasks.value;
            && |rest| == |tasks| - 1
            && (forall k :: 0 <= k < n - 1 ==> rest[k] == tasks[k])
            && (forall k :: n - 1 <= k < |rest| ==> rest[k] == tasks[k + 1])
            && multiset(rest) + multiset{tasks[n - 1]} == multiset(tasks)
            && e.response == Replied([Say(StrikeReply(tasks[n - 1])),
                                      Say(if rest == [] then EmptyListReply else RemainingReply(rest))])
  {
    DoneInRange(users, id, text, n);
    SpliceOut(users[id].tasks.value, n - 1);
  }

  /**
    The done handler as written never persists its removal: on a user with
    the single task "buy milk", "done 1" reports the list empty, yet the
    store still holds the task, so listing again does not say "no tasks".
   */
  lemma DoneNeverPersists()
    ensures var users := map["u1" := UserRecord("u1", Some(["buy milk"]))];
            var e := DoneOutcome(users, "u1", "1", false);
            && e.response == Replied([Say(StrikeReply("buy milk")), Say(EmptyListReply)])
            && ListOutcome(Loaded(users, "u1", false)).actions[0] != Say(NoTasksReply)
  {
  }

  /**
    With the save added, a successful done on a readable store leaves the
    remaining tasks stored, listing shows them, and the old last number is
    now out of range.
   */
  lemma CorrectedDonePersists(users: map<string, UserRecord>, id: string, text: string, n: nat)
    requires ParseIndex(text) == Some(n)
    requires WellKeyed(users)
    requires id in users && users[id].tasks.Some?
    requires 1 <= n <= |users[id].tasks.value|
    ensures var tasks := users[id].tasks.value;
            var rest := tasks[..n - 1] + tasks[n..];
            var after := CorrectedDoneUsers(users, id, text, false, None);
            && id in after && after[id] == UserRecord(id, Some(rest))
            && WellKeyed(after)
            && (forall other :: other != id ==> (other in after <==> other in users))
            && (forall other :: other != id && other in users ==> after[other] == users[other])
            && ListOutcome(Loaded(after, id, false))
               == Replied([Say(if rest == [] then NoTasksReply else ListReply(rest))])
            && DoneOutcome(after, id, NatToString(|tasks|), false).response
               == Replied([Say(OutOfRangeReply(|rest|))])
  {
    var tasks := users[id].tasks.value;
    var rest := tasks[..n - 1] + tasks[n..];
    DoneInRange(users, id, text, n);
    SpliceOut(tasks, n - 1);
    var after := CorrectedDoneUsers(users, id, text, false, None);
    assert after == users[id := UserRecord(id, Some(rest))];
    ParseIndexOfNatToString(|tasks|);
    DoneOutOfRange(after, id, NatToString(|tasks|), false);
  }
}

/**
  A session against the store: two adds, a listing, a done whose removal is
  not kept, an out-of-range done, and the corrected done that keeps it.
 */
module TaskbotSession {
  import opened Wrappers
  import opened Decimal
  import opened Taskbot

  method Session() returns (store: UserStore)
    ensures fresh(store) && store.Valid()
    ensures store.users == map["u1" := UserRecord("u1", Some(["buy milk", "call mom"]))]
  {
    store := new UserStore();
    var r := store.HandleAdd("u1", "buy milk", false, None);
    assert r == Replied([React(ThumbsUp)]);
    assert [] + ["buy milk"] == ["buy milk"];
    assert store.users == map["u1" := UserRecord("u1", Some(["buy milk"]))];
    r := store.HandleAdd("u1", "call mom", false, None);
    assert ["buy milk"] + ["call mom"] == ["buy milk", "call mom"];
    assert store.users["u1"].tasks == Some(["buy milk", "call mom"]);
    r := store.HandleList("u1", false);
    assert r == Replied([Say(ListReply(["buy milk", "call mom"]))]);
    ParseIndexOfNatToString(1);
    assert NatToString(1) == "1";
    var working, removed;
    r, working, removed := store.HandleDone("u1", "1", false);
    assert removed == Some("buy milk");
    assert working == Some(UserRecord("u1", Some(["call mom"])));
    ParseIndexOfNatToString(3);
    assert NatToString(3) == "3";
    r, working, removed := store.HandleDone("u1", "3", false);
    assert r == Replied([Say(OutOfRangeReply(2))]);
  }

  /** The same session followed by the corrected done, whose removal is kept. */
  method CorrectedSession() returns (store: UserStore)
    ensures store.users == map["u1" := UserRecord("u1", Some(["call mom"]))]
  {
    store := Session();
    ghost var before := store.users;
    CorrectedDonePersists(before, "u1", "1", 1);
    assert ["buy milk", "call mom"][..0] + ["buy milk", "call mom"][1..] == ["call mom"];
    var r := store.HandleDoneAndSave("u1", "1", false, None);
    assert store.users.Keys == {"u1"};
  }
}
