/** The task store: the page's list of tasks, changed in place by adding,
    saving an edit and deleting, mirrored to local storage and redrawn after
    each change. */
module TaskStore {
  import opened JsText
  import opened Tasks
  import opened TaskView

  datatype Option<T> = None | Some(value: T)

  /** What an operation redraws: the list area when it calls `renderTasks`,
      the count display when it calls `updateTasksCount`. */
  datatype Refresh = Refresh(list: Option<View>, count: Option<string>)

  class Store {
    /** The in-memory list, in insertion (and display) order. */
    var tasks: seq<Task>
    /** What local storage holds under the store's key, as a parsed list. */
    var stored: Option<seq<Task>>

    predicate Valid()
      reads this
    {
      Wellformed(tasks)
    }

    /** The page before its load handler runs: an empty list, with whatever
        an earlier session left in storage. */
    constructor (storage: Option<seq<Task>>)
      ensures tasks == [] && stored == storage
      ensures Valid()
    {
      tasks := [];
      stored := storage;
    }

    /** The load handler: take the stored list when there is one and draw it;
        always show the count. */
    method Load() returns (r: Refresh)
      modifies this
      ensures stored == old(stored)
      ensures tasks == if stored.Some? then stored.value else old(tasks)
      ensures r.count == Some(CountLabel(|tasks|))
      ensures r.list == if stored.Some? then Some(ViewOf(tasks)) else None
    {
      var list: Option<View> := None;
      if stored.Some? {
        tasks := stored.value;
        var v := Render();
        list := Some(v);
      }
      r := Refresh(list, Some(CountLabel(|tasks|)));
    }

    /** `saveTasks`: overwrite storage with the whole current list. */
    method Save()
      modifies this
      ensures tasks == old(tasks) && stored == Some(tasks)
    {
      stored := Some(tasks);
    }

    /** `renderTasks`: rebuild the list area from the current list, one row
        per task in order. */
    method Render() returns (v: View)
      ensures v == ViewOf(tasks)
    {
      if |tasks| == 0 {
        return View(true, []);
      }
      var rows: seq<Row> := [];
      var i := 0;
      while i < |tasks|
        invariant 0 <= i <= |tasks|
        invariant |rows| == i
        invariant forall k :: 0 <= k < i ==> rows[k] == RowOf(tasks[k])
      {
        rows := rows + [RowOf(tasks[i])];
        i := i + 1;
      }
      v := View(false, rows);
    }

    /** `addTask`, with the new id given by the caller: blank input changes
        nothing and redraws nothing; otherwise one new task, trimmed, not
        completed and not edited, goes at the end, and the list is saved and
        redrawn with its count. The list stays well-formed when the id is
        fresh. */
    method Add(input: string, freshId: int) returns (r: Refresh)
      modifies this
      ensures var text := Trim(input);
        if text == [] then
          tasks == old(tasks) && stored == old(stored) && r == Refresh(None, None)
        else
          tasks == old(tasks) + [Task(freshId, text, false, false)]
          && stored == Some(tasks)
          && r == Refresh(Some(ViewOf(tasks)), Some(CountLabel(|tasks|)))
      ensures old(Valid()) && !HasId(old(tasks), freshId) ==> Valid()
    {
      var text := Trim(input);
      if text == [] {
        return Refresh(None, None);
      }
      ghost var before := tasks;
      tasks := tasks + [Task(freshId, text, false, false)];
      if Wellformed(before) && !HasId(before, freshId) {
        AppendKeepsWellformed(before, Task(freshId, text, false, false));
      }
      Save();
      var v := Render();
      r := Refresh(Some(v), Some(CountLabel(|tasks|)));
    }

    /** `saveTaskEdit`: blank text is a cancel (nothing changes, the list is
        redrawn). Otherwise the first task with the id gets the trimmed text
        and the edited flag, every other task is untouched, and the list is
        saved and redrawn; an absent id changes and redraws nothing. */
    method SaveEdit(id: int, newText: string) returns (r: Refresh)
      modifies this
      ensures var text := Trim(newText);
        var k := FindIndex(old(tasks), id);
        if text == [] then
          tasks == old(tasks) && stored == old(stored) && r == Refresh(Some(ViewOf(tasks)), None)
        else if k == -1 then
          tasks == old(tasks) && stored == old(stored) && r == Refresh(None, None)
        else
          |tasks| == |old(tasks)|
          && tasks[k] == Edited(old(tasks)[k], text)
          && (forall j :: 0 <= j < |tasks| && j != k ==> tasks[j] == old(tasks)[j])
          && stored == Some(tasks)
          && r == Refresh(Some(ViewOf(tasks)), None)
      ensures old(Valid()) ==> Valid()
    {
      if Trim(newText) == [] {
        r := Cancel(id);
        return;
      }
      var k := FindIndex(tasks, id);
      if k != -1 {
        var text := Trim(newText);
        if Wellformed(tasks) {
          EditKeepsWellformed(tasks, k, text);
        }
        tasks := tasks[k := Edited(tasks[k], text)];
        Save();
        var v := Render();
        r := Refresh(Some(v), None);
      } else {
        r := Refresh(None, None);
      }
    }

    /** `cancelTaskEdit`: the list is left alone and simply redrawn. */
    method Cancel(id: int) returns (r: Refresh)
      ensures r == Refresh(Some(ViewOf(tasks)), None)
    {
      var v := Render();
      r := Refresh(Some(v), None);
    }

    /** `deleteTask`: keep exactly the tasks with another id, save, redraw
        the list and its count. */
    method Delete(id: int) returns (r: Refresh)
      modifies this
      ensures tasks == Remove(old(tasks), id)
      ensures stored == Some(tasks)
      ensures r == Refresh(Some(ViewOf(tasks)), Some(CountLabel(|tasks|)))
      ensures old(Valid()) ==> Valid()
    {
      if Wellformed(tasks) {
        RemoveKeepsWellformed(tasks, id);
      }
      tasks := Remove(tasks, id);
      Save();
      var v := Render();
      r := Refresh(Some(v), Some(CountLabel(|tasks|)));
    }
  }

  // A session in three steps (add "Buy milk", rename it, delete it). Each
  // step starts a fresh page whose storage holds the list the previous step
  // saved.

  method ExampleAdd() {
    CountLabelWording(0);
    CountLabelWording(1);
    assert "  " + "Buy milk" + [] == "  Buy milk";
    TrimOfPadded("  ", "Buy milk", []);
    var s := new Store(None);
    var r := s.Load();
    assert r == Refresh(None, Some("0 tasks"));
    r := s.Add("  Buy milk", 1);
    assert s.tasks == [Task(1, "Buy milk", false, false)];
    assert r.count == Some("1 task");
  }

  method ExampleRename() {
    TrimOfTrimmed("Buy oat milk");
    var s := new Store(Some([Task(1, "Buy milk", false, false)]));
    var r := s.Load();
    assert FindIndex(s.tasks, 1) == 0;
    r := s.SaveEdit(1, "Buy oat milk");
    assert s.tasks == [Task(1, "Buy oat milk", false, true)];
    assert Rows(s.tasks) == [Row(1, "Buy oat milk", true)];
    assert r.list == Some(View(false, [Row(1, "Buy oat milk", true)]));
  }

  method ExampleDelete() {
    CountLabelWording(0);
    var s := new Store(Some([Task(1, "Buy oat milk", false, true)]));
    var r := s.Load();
    RemovePresent(s.tasks, 1);
    r := s.Delete(1);
    assert s.tasks == [];
    assert r == Refresh(Some(View(true, [])), Some("0 tasks"));
    assert s.stored == Some([]);
  }
}
