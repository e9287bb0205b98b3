/** The task list: records `{name, completed, created_at}` in insertion
    order, addressed by position. */
module TaskList {
  import opened Common

  /** `createdAt` is the ISO-8601 text of the creation time, taken as given. */
  datatype Task = Task(name: string, completed: bool, createdAt: string)

  /** The characters Python's `str.strip()` removes (`str.isspace`). */
  predicate IsSpace(c: char)
  {
    || '\t' <= c <= '\r'
    || '\U{1C}' <= c <= '\U{1F}'
    || c == ' ' || c == '\U{85}' || c == '\U{A0}' || c == '\U{1680}'
    || '\U{2000}' <= c <= '\U{200A}'
    || c == '\U{2028}' || c == '\U{2029}' || c == '\U{202F}' || c == '\U{205F}' || c == '\U{3000}'
  }

  predicate AllSpace(s: string) { forall k :: 0 <= k < |s| ==> IsSpace(s[k]) }

  /** Drops leading whitespace: the result is a suffix of `s`, what was
      dropped is whitespace, and the result does not start with whitespace. */
  function TrimStart(s: string): (r: string)
    ensures |r| <= |s| && r == s[|s| - |r|..]
    ensures AllSpace(s[..|s| - |r|])
    ensures r != [] ==> !IsSpace(r[0])
  {
    if s != [] && IsSpace(s[0]) then TrimStart(s[1..]) else s
  }

  /** Drops trailing whitespace: the result is a prefix of `s`, what was
      dropped is whitespace, and the result does not end with whitespace. */
  function TrimEnd(s: string): (r: string)
    ensures |r| <= |s| && r == s[..|r|]
    ensures AllSpace(s[|r|..])
    ensures r != [] ==> !IsSpace(r[|r| - 1])
  {
    if s != [] && IsSpace(s[|s| - 1]) then
      var r := TrimEnd(s[..|s| - 1]);
      assert s[|r|..] == s[..|s| - 1][|r|..] + [s[|s| - 1]];
      r
    else
      s
  }

  /** Python's `str.strip()` with no argument. */
  function Strip(s: string): string
  {
    TrimEnd(TrimStart(s))
  }

  /** `strip` keeps a contiguous part of its input and drops only the
      whitespace around it. */
  lemma StripSlice(s: string)
    ensures exists i, j :: (0 <= i <= j <= |s| && Strip(s) == s[i..j]
                            && AllSpace(s[..i]) && AllSpace(s[j..]))
  {
    var t := TrimStart(s);
    var i := |s| - |t|;
    var r := TrimEnd(t);
    var j := i + |r|;
    assert s[i..j] == r by {
      assert t == s[i..];
      assert r == t[..|r|];
    }
    assert AllSpace(s[j..]) by {
      assert s[j..] == t[|r|..];
    }
  }

  /** The result of `strip` neither starts nor ends with whitespace. */
  lemma StripEnds(s: string)
    ensures Strip(s) != [] ==> !IsSpace(Strip(s)[0]) && !IsSpace(Strip(s)[|Strip(s)| - 1])
  {
    var t := TrimStart(s);
    var r := TrimEnd(t);
    if r != [] {
      assert r[0] == t[0];
    }
  }

  /** `strip` gives the empty string exactly when the input is all whitespace. */
  lemma StripEmpty(s: string)
    ensures Strip(s) == [] <==> AllSpace(s)
  {
    var t := TrimStart(s);
    var i := |s| - |t|;
    if Strip(s) == [] {
      assert t[0..] == t;
      assert s[..|s|] == s;
    }
  }

  lemma TrimStartNoLead(s: string)
    requires s == [] || !IsSpace(s[0])
    ensures TrimStart(s) == s
  {
  }

  lemma TrimEndNoTrail(s: string)
    requires s == [] || !IsSpace(s[|s| - 1])
    ensures TrimEnd(s) == s
  {
  }

  /** Stripping twice is stripping once. */
  lemma StripIdempotent(s: string)
    ensures Strip(Strip(s)) == Strip(s)
  {
    var r := Strip(s);
    StripEnds(s);
    TrimStartNoLead(r);
    TrimEndNoTrail(r);
  }

  /** Names as the Tray `add_task` stores them: non-empty and already stripped. */
  predicate WellFormedName(name: string)
  {
    name != [] && Strip(name) == name
  }

  predicate WellFormedNames(tasks: seq<Task>)
  {
    forall k :: 0 <= k < |tasks| ==> WellFormedName(tasks[k].name)
  }

  /** `add_task` (tray version): `input` is the dialog's answer (`None` when
      cancelled). A task named by the stripped text, not completed, is
      appended exactly when that stripped text is non-empty. */
  function AddTask(tasks: seq<Task>, input: Option<string>, createdAt: string): (r: seq<Task>)
    ensures (input.Some? && Strip(input.value) != []) <==> |r| == |tasks| + 1
    ensures |r| == |tasks| + 1 ==>
              r == tasks + [Task(Strip(input.value), false, createdAt)]
    ensures |r| != |tasks| + 1 ==> r == tasks
  {
    if input.Some? && input.value != [] && Strip(input.value) != [] then
      tasks + [Task(Strip(input.value), false, createdAt)]
    else
      tasks
  }

  /** The tray `add_task` keeps every stored name non-empty and stripped. */
  lemma AddTaskKeepsNamesWellFormed(tasks: seq<Task>, input: Option<string>, createdAt: string)
    requires WellFormedNames(tasks)
    ensures WellFormedNames(AddTask(tasks, input, createdAt))
  {
    if input.Some? && Strip(input.value) != [] {
      StripIdempotent(input.value);
    }
  }

  /** `add_task` as the macOS variant writes it: the raw text is tested for
      emptiness before it is stripped. */
  function MacAddTask(tasks: seq<Task>, clicked: bool, text: string, createdAt: string): (r: seq<Task>)
    ensures (clicked && text != []) <==> |r| == |tasks| + 1
    ensures |tasks| <= |r| && r[..|tasks|] == tasks
    ensures !(clicked && text != []) ==> r == tasks
    ensures |r| == |tasks| + 1 ==> r[|tasks|] == Task(Strip(text), false, createdAt)
  {
    if clicked && text != [] then tasks + [Task(Strip(text), false, createdAt)] else tasks
  }

  /** Whitespace-only text makes the macOS variant store a task whose name
      is empty. */
  lemma MacAddTaskStoresEmptyName(createdAt: string)
    ensures MacAddTask([], true, " ", createdAt) == [Task("", false, createdAt)]
    ensures !WellFormedNames(MacAddTask([], true, " ", createdAt))
  {
    assert TrimStart(" ") == TrimStart(" "[1..]);
  }

  /** `toggle_task_completed`: flips the `completed` flag of the task at
      `index` and touches nothing else; an index outside the list changes
      nothing. */
  function Toggle(tasks: seq<Task>, index: int): (r: seq<Task>)
    ensures |r| == |tasks|
    ensures forall k :: 0 <= k < |tasks| && k != index ==> r[k] == tasks[k]
    ensures 0 <= index < |tasks| ==>
              r[index].completed == !tasks[index].completed
              && r[index].name == tasks[index].name
              && r[index].createdAt == tasks[index].createdAt
    ensures !(0 <= index < |tasks|) ==> r == tasks
  {
    if 0 <= index < |tasks| then
      tasks[index := tasks[index].(completed := !tasks[index].completed)]
    else
      tasks
  }

  /** Toggling the same position twice restores the list. */
  lemma ToggleTwice(tasks: seq<Task>, index: int)
    ensures Toggle(Toggle(tasks, index), index) == tasks
  {
  }

  /** `delete_task`: removes exactly the task at `index` and keeps the
      others in order; an index outside the list changes nothing. */
  function Delete(tasks: seq<Task>, index: int): (r: seq<Task>)
    ensures 0 <= index < |tasks| ==>
              |r| == |tasks| - 1
              && (forall k :: 0 <= k < index ==> r[k] == tasks[k])
              && (forall k :: index <= k < |r| ==> r[k] == tasks[k + 1])
              && multiset(r) + multiset{tasks[index]} == multiset(tasks)
    ensures !(0 <= index < |tasks|) ==> r == tasks
  {
    if 0 <= index < |tasks| then
      assert tasks == tasks[..index] + [tasks[index]] + tasks[index + 1..];
      tasks[..index] + tasks[index + 1..]
    else
      tasks
  }

  /** Deleting the task just added restores the list. */
  lemma DeleteUndoesAdd(tasks: seq<Task>, input: Option<string>, createdAt: string)
    ensures Delete(AddTask(tasks, input, createdAt), |tasks|) == tasks
  {
    var r := AddTask(tasks, input, createdAt);
    if |r| == |tasks| + 1 {
      assert r[..|tasks|] == tasks;
    }
  }

  /** Toggling and deleting keep names as they were, so they keep the
      well-formed-names invariant. */
  lemma ToggleDeleteKeepNamesWellFormed(tasks: seq<Task>, index: int)
    requires WellFormedNames(tasks)
    ensures WellFormedNames(Toggle(tasks, index))
    ensures WellFormedNames(Delete(tasks, index))
  {
    var d := Delete(tasks, index);
    forall k | 0 <= k < |d| ensures WellFormedName(d[k].name) {
      if 0 <= index < |tasks| && k >= index {
        assert d[k] == tasks[k + 1];
      } else {
        assert d[k] == tasks[k];
      }
    }
    var g := Toggle(tasks, index);
    forall k | 0 <= k < |g| ensures WellFormedName(g[k].name) {
      assert g[k].name == tasks[k].name;
    }
  }
}
