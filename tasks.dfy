/** The task record and the pure list operations the store is built from:
    the `findIndex` lookup used by saving an edit, the `filter` used by
    deletion, and the list invariant the store keeps. */
module Tasks {
  import opened JsText

  /** One to-do entry. `completed` is created false and never changed. */
  datatype Task = Task(id: int, text: string, completed: bool, edited: bool)

  predicate HasId(ts: seq<Task>, id: int) {
    exists i :: 0 <= i < |ts| && ts[i].id == id
  }

  predicate UniqueIds(ts: seq<Task>) {
    forall i, j :: 0 <= i < j < |ts| ==> ts[i].id != ts[j].id
  }

  /** The text the store accepts: not blank, and already trimmed. */
  predicate CleanText(s: string) {
    s != [] && Trimmed(s)
  }

  /** The list invariant: ids pairwise distinct, every text clean. */
  predicate Wellformed(ts: seq<Task>) {
    UniqueIds(ts) && forall i :: 0 <= i < |ts| ==> CleanText(ts[i].text)
  }

  /** The position of the first task carrying `id`, or -1 when no task
      carries it. */
  function FindIndex(ts: seq<Task>, id: int): (k: int)
    ensures -1 <= k < |ts|
    ensures k == -1 <==> !HasId(ts, id)
    ensures 0 <= k ==> ts[k].id == id && forall j :: 0 <= j < k ==> ts[j].id != id
  {
    if ts == [] then -1
    else if ts[0].id == id then 0
    else
      var k := FindIndex(ts[1..], id);
      if k == -1 then -1 else k + 1
  }

  /** The record after a successful edit: new text, flagged as edited; the
      id and the completed flag are carried over. */
  function Edited(t: Task, text: string): (e: Task)
    ensures e.id == t.id && e.completed == t.completed
    ensures e.text == text && e.edited
  {
    t.(text := text, edited := true)
  }

  /** The list with every task carrying `id` dropped: exactly the tasks whose
      id differs, in their original order. */
  function Remove(ts: seq<Task>, id: int): (r: seq<Task>)
    ensures |r| <= |ts|
    ensures forall t :: t in r <==> t in ts && t.id != id
  {
    if ts == [] then []
    else if ts[0].id == id then Remove(ts[1..], id)
    else [ts[0]] + Remove(ts[1..], id)
  }

  /** Remove works element by element, so it keeps the relative order. */
  lemma {:induction false} RemoveConcat(a: seq<Task>, b: seq<Task>, id: int)
    ensures Remove(a + b, id) == Remove(a, id) + Remove(b, id)
  {
    if a == [] {
      assert a + b == b;
    } else {
      assert (a + b)[1..] == a[1..] + b;
      RemoveConcat(a[1..], b, id);
    }
  }

  /** Filtering out an id that is not there changes nothing. */
  lemma {:induction false} RemoveAbsent(ts: seq<Task>, id: int)
    requires !HasId(ts, id)
    ensures Remove(ts, id) == ts
  {
    if ts != [] {
      assert !HasId(ts[1..], id) by {
        forall i | 0 <= i < |ts[1..]| ensures ts[1..][i].id != id {
          assert ts[1..][i] == ts[i + 1];
        }
      }
      RemoveAbsent(ts[1..], id);
    }
  }

  /** With unique ids, filtering out a present id removes exactly one task. */
  lemma {:induction false} RemovePresent(ts: seq<Task>, id: int)
    requires UniqueIds(ts) && HasId(ts, id)
    ensures |Remove(ts, id)| == |ts| - 1
  {
    var rest := ts[1..];
    if ts[0].id == id {
      assert !HasId(rest, id) by {
        forall i | 0 <= i < |rest| ensures rest[i].id != id {
          assert rest[i] == ts[i + 1];
        }
      }
      RemoveAbsent(rest, id);
    } else {
      var i :| 0 <= i < |ts| && ts[i].id == id;
      assert rest[i - 1] == ts[i];
      RemovePresent(rest, id);
    }
  }

  // ---------------------------------------------------------------------
  // The list invariant is kept by each way the store changes its list

  lemma AppendKeepsWellformed(ts: seq<Task>, t: Task)
    requires Wellformed(ts) && !HasId(ts, t.id) && CleanText(t.text)
    ensures Wellformed(ts + [t])
  {
    var r := ts + [t];
    forall i, j | 0 <= i < j < |r| ensures r[i].id != r[j].id {
      if j < |ts| { assert r[i] == ts[i] && r[j] == ts[j]; } else { assert r[i] == ts[i]; }
    }
  }

  lemma EditKeepsWellformed(ts: seq<Task>, k: int, text: string)
    requires Wellformed(ts) && 0 <= k < |ts| && CleanText(text)
    ensures Wellformed(ts[k := Edited(ts[k], text)])
  {
  }

  lemma TailKeepsWellformed(ts: seq<Task>)
    requires Wellformed(ts) && ts != []
    ensures Wellformed(ts[1..])
  {
    forall i | 0 <= i < |ts| - 1 ensures ts[1..][i] == ts[i + 1] { }
  }

  lemma ConsKeepsWellformed(t: Task, r: seq<Task>)
    requires Wellformed(r) && !HasId(r, t.id) && CleanText(t.text)
    ensures Wellformed([t] + r)
  {
    var u := [t] + r;
    forall i, j | 0 <= i < j < |u| ensures u[i].id != u[j].id {
      assert u[j] == r[j - 1];
      if 0 < i { assert u[i] == r[i - 1]; }
    }
  }

  /** With unique ids, no task drawn from the tail shares the head's id. */
  lemma HeadIdNotInTail(ts: seq<Task>, r: seq<Task>)
    requires UniqueIds(ts) && ts != []
    requires forall x :: x in r ==> x in ts[1..]
    ensures !HasId(r, ts[0].id)
  {
    forall j | 0 <= j < |r| ensures r[j].id != ts[0].id {
      assert r[j] in ts[1..];
      var m :| 0 <= m < |ts| - 1 && ts[1..][m] == r[j];
      assert ts[1..][m] == ts[m + 1];
    }
  }

  lemma {:induction false} RemoveKeepsWellformed(ts: seq<Task>, id: int)
    requires Wellformed(ts)
    ensures Wellformed(Remove(ts, id))
  {
    if ts != [] {
      TailKeepsWellformed(ts);
      RemoveKeepsWellformed(ts[1..], id);
      if ts[0].id != id {
        HeadIdNotInTail(ts, Remove(ts[1..], id));
        ConsKeepsWellformed(ts[0], Remove(ts[1..], id));
      }
    }
  }
}
