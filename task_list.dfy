/**
  The text `generateTaskList` builds from a user's tasks: one line per task,
  in stored order, numbered from 1, each of the form "> `k`) task" followed
  by a newline.
 */
module TaskListText {
  import opened Decimal

  /** The line for the task at 1-based position `k`. */
  function Line(k: nat, task: string): (line: string) {
    "> `" + NatToString(k) + "`) " + task + "\n"
  }

  /** Reference rendering, built from the back as the loop extends its text. */
  function TaskList(tasks: seq<string>): (text: string)
    decreases |tasks|
  {
    if tasks == [] then "" else TaskList(tasks[..|tasks| - 1]) + Line(|tasks|, tasks[|tasks| - 1])
  }

  /** The lines of a rendering, one per task, by position. */
  function Lines(tasks: seq<string>): (lines: seq<string>) {
    seq(|tasks|, k requires 0 <= k < |tasks| => Line(k + 1, tasks[k]))
  }

  function Concat(parts: seq<string>): (text: string)
    decreases |parts|
  {
    if parts == [] then "" else parts[0] + Concat(parts[1..])
  }

  /** `generateTaskList(user)`: the `for` loop over `user.tasks` that extends `text` one line at a time. */
  method GenerateTaskList(tasks: seq<string>) returns (text: string)
    ensures text == TaskList(tasks)
  {
    text := "";
    var t := 0;
    while t < |tasks|
      invariant 0 <= t <= |tasks|
      invariant text == TaskList(tasks[..t])
    {
      text := text + "> `" + NatToString(t + 1) + "`) " + tasks[t] + "\n";
      assert tasks[..t + 1][..t] == tasks[..t];
      t := t + 1;
    }
    assert tasks[..t] == tasks;
  }

  lemma {:induction false} ConcatSnoc(parts: seq<string>, last: string)
    ensures Concat(parts + [last]) == Concat(parts) + last
    decreases |parts|
  {
    if parts != [] {
      assert (parts + [last])[1..] == parts[1..] + [last];
      ConcatSnoc(parts[1..], last);
    }
  }

  /** The rendering is exactly the concatenation of line k for every position k, in order. */
  lemma {:induction false} TaskListIsLines(tasks: seq<string>)
    ensures TaskList(tasks) == Concat(Lines(tasks))
    decreases |tasks|
  {
    if tasks != [] {
      var front := tasks[..|tasks| - 1];
      TaskListIsLines(front);
      assert Lines(tasks) == Lines(front) + [Line(|tasks|, tasks[|tasks| - 1])];
      ConcatSnoc(Lines(front), Line(|tasks|, tasks[|tasks| - 1]));
    }
  }

  /** Appending tasks only appends lines: the rendering of a list starts with that of each prefix. */
  lemma {:induction false} TaskListPrefix(tasks: seq<string>, more: seq<string>)
    ensures TaskList(tasks) <= TaskList(tasks + more)
    decreases |more|
  {
    if more != [] {
      var all := tasks + more;
      assert all[..|all| - 1] == tasks + more[..|more| - 1];
      TaskListPrefix(tasks, more[..|more| - 1]);
      var mid := TaskList(tasks + more[..|more| - 1]);
      assert TaskList(all) == mid + Line(|all|, all[|all| - 1]);
      assert TaskList(all)[..|mid|] == mid;
      assert TaskList(all)[..|TaskList(tasks)|] == mid[..|TaskList(tasks)|];
    } else {
      assert tasks + more == tasks;
    }
  }

  /** A new last task adds exactly its line, numbered one past the old length. */
  lemma TaskListAppend(tasks: seq<string>, task: string)
    ensures TaskList(tasks + [task]) == TaskList(tasks) + Line(|tasks| + 1, task)
  {
    assert (tasks + [task])[..|tasks|] == tasks;
  }

  /** The rendering is empty exactly when there are no tasks. */
  lemma TaskListEmpty(tasks: seq<string>)
    ensures TaskList(tasks) == "" <==> tasks == []
  {
  }

  /** A line holds one newline, its last character, when its task holds none. */
  lemma LineNewline(k: nat, task: string)
    requires '\n' !in task
    ensures multiset(Line(k, task))['\n'] == 1
  {
    var digits := NatToString(k);
    assert multiset(digits)['\n'] == 0 by { assert '\n' !in digits; }
    assert multiset(task)['\n'] == 0;
    assert multiset(Line(k, task))
        == multiset("> `") + multiset(digits) + multiset("`) ") + multiset(task) + multiset("\n");
  }

  /** For tasks without a newline of their own, the rendering holds one newline per task. */
  lemma {:induction false} TaskListNewlines(tasks: seq<string>)
    requires forall i :: 0 <= i < |tasks| ==> '\n' !in tasks[i]
    ensures multiset(TaskList(tasks))['\n'] == |tasks|
    decreases |tasks|
  {
    if tasks != [] {
      var k := |tasks|;
      TaskListNewlines(tasks[..k - 1]);
      LineNewline(k, tasks[k - 1]);
      assert multiset(TaskList(tasks)) == multiset(TaskList(tasks[..k - 1])) + multiset(Line(k, tasks[k - 1]));
    }
  }
}
