/** What the page shows of the task list: the rows `renderTasks` draws and
    the label `updateTasksCount` writes. */
module TaskView {
  import opened JsText
  import opened Tasks

  /** One drawn row: the `data-id` the Edit and Delete buttons act on, the
      text shown, and whether the "(edited)" badge is present. */
  datatype Row = Row(id: int, text: string, badge: bool)

  /** The list area: whether the empty-state placeholder is shown, and the
      rows in display order. */
  datatype View = View(showEmpty: bool, rows: seq<Row>)

  function RowOf(t: Task): Row {
    Row(t.id, t.text, t.edited)
  }

  /** One row per task, in list order. */
  function Rows(ts: seq<Task>): (rs: seq<Row>)
    ensures |rs| == |ts|
    ensures forall i :: 0 <= i < |ts| ==> rs[i] == RowOf(ts[i])
  {
    if ts == [] then [] else [RowOf(ts[0])] + Rows(ts[1..])
  }

  /** The list area after a full rebuild from `ts`: the placeholder and no
      rows exactly when the list is empty; otherwise one row per task in
      order, carrying its id and text, with a badge exactly when the task was
      edited. */
  function ViewOf(ts: seq<Task>): (v: View)
    ensures v.showEmpty <==> ts == []
    ensures v.showEmpty ==> v.rows == []
    ensures |v.rows| == |ts|
    ensures forall i :: 0 <= i < |ts| ==>
              v.rows[i].id == ts[i].id && v.rows[i].text == ts[i].text
              && (v.rows[i].badge <==> ts[i].edited)
  {
    View(ts == [], Rows(ts))
  }

  /** The count in decimal, a space, then "task" for exactly one task and
      "tasks" for any other number, zero included. */
  function CountLabel(n: nat): (s: string)
    ensures n == 1 ==> s == "1 task"
    ensures n != 1 ==> s == DecimalString(n) + " tasks"
  {
    assert DecimalString(1) == "1";
    DecimalString(n) + " " + (if n == 1 then "task" else "tasks")
  }

  lemma NoSpaceInDecimal(n: nat)
    ensures ' ' !in DecimalString(n)
  {
  }

  /** In `a + " " + x` with no space in `a`, the first space is at `|a|`. */
  lemma FirstSpaceAt(a: string, x: string)
    requires ' ' !in a
    ensures (a + " " + x)[|a|] == ' '
    ensures forall i :: 0 <= i < |a| ==> (a + " " + x)[i] != ' '
  {
    forall i | 0 <= i < |a| ensures (a + " " + x)[i] != ' ' {
      assert (a + " " + x)[i] == a[i];
    }
  }

  /** Two strings without spaces, each followed by a space, can only make
      equal strings if they are the same. */
  lemma SpaceSeparatedPrefix(a: string, x: string, b: string, y: string)
    requires ' ' !in a && ' ' !in b
    requires a + " " + x == b + " " + y
    ensures a == b
  {
    FirstSpaceAt(a, x);
    FirstSpaceAt(b, y);
    if |a| < |b| {
      assert false;
    } else if |b| < |a| {
      assert false;
    }
    assert a == (a + " " + x)[..|a|];
  }

  /** The label determines the count: different counts never show the same
      text. */
  lemma CountLabelInjective(m: nat, n: nat)
    requires CountLabel(m) == CountLabel(n)
    ensures m == n
  {
    NoSpaceInDecimal(m);
    NoSpaceInDecimal(n);
    SpaceSeparatedPrefix(DecimalString(m), if m == 1 then "task" else "tasks",
                         DecimalString(n), if n == 1 then "task" else "tasks");
    DecimalRoundTrip(m);
    DecimalRoundTrip(n);
  }

  /** Singular wording exactly for one task; zero and two read as plurals. */
  lemma CountLabelWording(n: nat)
    ensures CountLabel(n) == "1 task" <==> n == 1
    ensures CountLabel(0) == "0 tasks" && CountLabel(2) == "2 tasks"
  {
    assert DecimalString(1) == "1";
    assert CountLabel(1) == "1 task";
    if CountLabel(n) == "1 task" {
      CountLabelInjective(n, 1);
    }
    assert DecimalString(0) == "0" && DecimalString(2) == "2";
  }
}
