/** The project tree (components/ProjectTree.tsx and its later version
    components/ProjectTree/ProjectTree.tsx, with components/ProjectTree/utils.ts):
    the colour each tab gets, the node a task becomes, the lookup behind a
    double click, the loading of a stored tree, and the date shown on a
    node. */
module ProjectTree {
  import opened Types
  import opened Seqs
  import Decimal
  import Stores

  /** The hue of the n-th colour, in half degrees: `(n * 137.5) % 360`
      is exactly half of `(n * 275) % 720`. */
  function HueHalfDegrees(n: nat): (h: nat)
    ensures h < 720
  {
    (n * 275) % 720
  }

  /** A hue as JavaScript prints a multiple of 0.5. */
  function HueText(h: nat): string {
    Decimal.DecimalString(h / 2) + (if h % 2 == 1 then ".5" else "")
  }

  /** `generateColorForTab(n)`, and the expression the later version
      writes inline: saturation 70%, lightness 80%. */
  function ColourForTab(n: nat): (c: string)
    ensures c != ""
  {
    "hsl(" + HueText(HueHalfDegrees(n)) + ", 70%, 80%)"
  }

  /** The golden-angle steps come back to the same hue after 144 tabs. */
  lemma ColourPeriod(n: nat)
    ensures ColourForTab(n + 144) == ColourForTab(n)
  {
    HuePeriod(n);
  }

  /** 144 steps of 137.5 degrees are 55 full turns. */
  lemma HuePeriod(n: nat)
    ensures HueHalfDegrees(n + 144) == HueHalfDegrees(n)
  {
    var a := n * 275;
    assert (n + 144) * 275 == a + 720 * 55;
    TurnsVanish(a, 55);
  }

  /** Whole turns do not change a hue. */
  lemma {:induction false} TurnsVanish(a: int, k: nat)
    ensures (a + 720 * k) % 720 == a % 720
  {
    if k > 0 {
      TurnsVanish(a, k - 1);
      assert a + 720 * k == (a + 720 * (k - 1)) + 720;
    }
  }

  /** The tab of every task, in list order. */
  function Tabs(tasks: seq<Task>): (r: seq<int>)
    ensures |r| == |tasks| && forall i :: 0 <= i < |tasks| ==> r[i] == tasks[i].tab
  {
    seq(|tasks|, i requires 0 <= i < |tasks| => tasks[i].tab)
  }

  lemma TabsSnoc(tasks: seq<Task>, t: Task)
    ensures Tabs(tasks + [t]) == Tabs(tasks) + [t.tab]
  {
  }

  /** The colours of a list of distinct tabs: the i-th gets the i-th colour. */
  function Palette(d: seq<int>): map<int, string>
    decreases |d|
  {
    if d == [] then map[]
    else Palette(d[..|d| - 1])[d[|d| - 1] := ColourForTab(|d| - 1)]
  }

  lemma {:induction false} PaletteKeys(d: seq<int>)
    ensures forall x :: x in Palette(d) <==> x in d
    decreases |d|
  {
    if d != [] {
      var pre := d[..|d| - 1];
      PaletteKeys(pre);
      assert d == pre + [d[|d| - 1]];
    }
  }

  lemma {:induction false} PaletteSize(d: seq<int>)
    requires NoDuplicates(d)
    ensures |Palette(d)| == |d|
    decreases |d|
  {
    if d != [] {
      var pre := d[..|d| - 1];
      assert NoDuplicates(pre);
      PaletteSize(pre);
      PaletteKeys(pre);
      assert d[|d| - 1] !in pre;
    }
  }

  lemma {:induction false} PaletteAt(d: seq<int>, i: nat)
    requires NoDuplicates(d) && i < |d|
    ensures d[i] in Palette(d) && Palette(d)[d[i]] == ColourForTab(i)
    decreases |d|
  {
    var pre := d[..|d| - 1];
    if i < |d| - 1 {
      assert NoDuplicates(pre);
      PaletteAt(pre, i);
      assert pre[i] == d[i] && d[i] != d[|d| - 1];
    }
  }

  /** No colour is the empty string, so an assigned entry is truthy. */
  lemma {:induction false} PaletteTruthy(d: seq<int>)
    ensures forall x :: x in Palette(d) ==> Palette(d)[x] != ""
    decreases |d|
  {
    if d != [] {
      PaletteTruthy(d[..|d| - 1]);
    }
  }

  /** The `tabColors` object after the `forEach`, as a function of the
      tasks: the distinct tabs in order of first occurrence, coloured by
      position. */
  function TabColours(tasks: seq<Task>): map<int, string> {
    Palette(Dedup(Tabs(tasks)))
  }

  /** Adding one element to the list whose distinct elements are coloured:
      a new element gets the colour numbered by how many have one. */
  lemma PaletteStep(xs: seq<int>, x: int)
    ensures var c := Palette(Dedup(xs));
            Palette(Dedup(xs + [x])) == if x in c then c else c[x := ColourForTab(|c|)]
  {
    var d := Dedup(xs);
    DedupSnoc(xs, x);
    PaletteKeys(d);
    if x !in d {
      PaletteSize(d);
      PaletteSnoc(d, x);
    }
  }

  lemma PaletteSnoc(d: seq<int>, x: int)
    ensures Palette(d + [x]) == Palette(d)[x := ColourForTab(|d|)]
  {
    var e := d + [x];
    assert |e| - 1 == |d| && e[|e| - 1] == x && e[..|e| - 1] == d;
    assert Palette(e) == Palette(e[..|e| - 1])[e[|e| - 1] := ColourForTab(|e| - 1)];
  }

  /** One step of the `forEach`: a tab without a colour gets the colour
      numbered by how many tabs already have one. */
  lemma ColoursStep(tasks: seq<Task>, i: nat)
    requires i < |tasks|
    ensures var c := TabColours(tasks[..i]);
            TabColours(tasks[..i + 1]) ==
              if tasks[i].tab in c then c else c[tasks[i].tab := ColourForTab(|c|)]
  {
    assert tasks[..i + 1] == tasks[..i] + [tasks[i]];
    TabsSnoc(tasks[..i], tasks[i]);
    PaletteStep(Tabs(tasks[..i]), tasks[i].tab);
  }

  /** The `forEach` over the tasks that fills `tabColors`: a tab whose
      entry is falsy gets the next colour, numbered by the number of keys. */
  method AssignTabColours(tasks: seq<Task>) returns (colours: map<int, string>)
    ensures colours == TabColours(tasks)
  {
    colours := map[];
    var i := 0;
    while i < |tasks|
      invariant 0 <= i <= |tasks|
      invariant colours == TabColours(tasks[..i])
    {
      var tab := tasks[i].tab;
      ColoursStep(tasks, i);
      PaletteTruthy(Dedup(Tabs(tasks[..i])));
      if !(tab in colours && colours[tab] != "") {
        colours := colours[tab := ColourForTab(|colours|)];
      }
      i := i + 1;
    }
    assert tasks[..|tasks|] == tasks;
  }

  /** Dedup of a longer list extends Dedup of its prefix. */
  lemma {:induction false} DedupPrefix(a: seq<int>, b: seq<int>)
    ensures |Dedup(a)| <= |Dedup(a + b)| && Dedup(a + b)[..|Dedup(a)|] == Dedup(a)
    decreases |b|
  {
    if b == [] {
      assert a + b == a;
    } else {
      var b' := b[..|b| - 1];
      var x := b[|b| - 1];
      DedupPrefix(a, b');
      assert a + b == (a + b') + [x];
      DedupSnoc(a + b', x);
    }
  }

  /** In the distinct elements, an element sits at the position given by
      the number of distinct elements before its first occurrence. */
  lemma FirstOccurrenceSlot(ts: seq<int>, x: int)
    requires x in ts
    ensures var d0 := Dedup(ts[..FirstIndex(ts, x)]);
            |d0| < |Dedup(ts)| && Dedup(ts)[|d0|] == x
  {
    var first := FirstIndex(ts, x);
    var pre := ts[..first];
    var upto := ts[..first + 1];
    var rest := ts[first + 1..];
    assert upto == pre + [x];
    assert ts == upto + rest;
    assert x !in pre;
    var d0 := Dedup(pre);
    DedupMembers(pre);
    DedupSnoc(pre, x);
    DedupPrefix(upto, rest);
    assert Dedup(ts)[|d0|] == (d0 + [x])[|d0|];
  }

  /** The tabs get their colours in the order of their first occurrence:
      every task's tab has a colour, and it is the colour numbered by how
      many distinct tabs occur before that tab's first task. */
  lemma TabColoursSpec(tasks: seq<Task>, i: nat)
    requires i < |tasks|
    ensures var tab := tasks[i].tab;
            var first := FirstIndex(Tabs(tasks), tab);
            && tab in TabColours(tasks)
            && TabColours(tasks)[tab] == ColourForTab(|Dedup(Tabs(tasks[..first]))|)
  {
    var ts := Tabs(tasks);
    var tab := tasks[i].tab;
    assert ts[i] == tab;
    var first := FirstIndex(ts, tab);
    assert Tabs(tasks[..first]) == ts[..first];
    FirstOccurrenceSlot(ts, tab);
    PaletteAt(Dedup(ts), |Dedup(ts[..first])|);
  }

  /** A tab has a colour exactly when some task has that tab. */
  lemma TabColoursKeys(tasks: seq<Task>, tab: int)
    ensures tab in TabColours(tasks) <==> tab in Tabs(tasks)
  {
    PaletteKeys(Dedup(Tabs(tasks)));
    DedupMembers(Tabs(tasks));
  }

  /** Colours of the distinct elements of a list survive any extension. */
  lemma PaletteExtend(xs: seq<int>, ys: seq<int>, x: int)
    requires x in Palette(Dedup(xs))
    ensures x in Palette(Dedup(xs + ys)) && Palette(Dedup(xs + ys))[x] == Palette(Dedup(xs))[x]
  {
    var d := Dedup(xs);
    var e := Dedup(xs + ys);
    DedupPrefix(xs, ys);
    PaletteKeys(d);
    var k :| 0 <= k < |d| && d[k] == x;
    assert e[k] == d[k];
    PaletteAt(d, k);
    PaletteAt(e, k);
  }

  /** Later tasks never change a colour already assigned. */
  lemma TabColoursExtend(a: seq<Task>, b: seq<Task>, tab: int)
    requires tab in TabColours(a)
    ensures tab in TabColours(a + b) && TabColours(a + b)[tab] == TabColours(a)[tab]
  {
    TabsConcat(a, b);
    PaletteExtend(Tabs(a), Tabs(b), tab);
  }

  lemma TabsConcat(a: seq<Task>, b: seq<Task>)
    ensures Tabs(a + b) == Tabs(a) + Tabs(b)
  {
  }

  /** The fallback background for a tab without a colour. */
  const Fallback: string := "#E0E0E0"

  datatype NodeData = NodeData(labelText: string, startDate: string, dueDate: string)

  /** A node of the tree; the random position and the fixed style values
      are not modelled. */
  datatype TreeNode = TreeNode(id: string, data: NodeData, background: string)

  /** An edge is reactflow's; only its ends are kept. */
  datatype Edge = Edge(source: string, target: string)

  /** The node `addTaskToTree` builds for a task. */
  function NewNode(t: Task, colours: map<int, string>): (n: TreeNode)
    ensures n.id == Decimal.DecimalString(t.id) && n.data.labelText == t.title
    ensures n.data.startDate == OrElse(t.scheduledStart, Unset)
    ensures n.data.dueDate == OrElse(t.dueDate, Unset)
    ensures n.background == if t.tab in colours && colours[t.tab] != "" then colours[t.tab] else Fallback
  {
    TreeNode(Decimal.DecimalString(t.id),
             NodeData(t.title, OrElse(t.scheduledStart, Unset), OrElse(t.dueDate, Unset)),
             if t.tab in colours && colours[t.tab] != "" then colours[t.tab] else Fallback)
  }

  /** A task added from the list beside the tree gets its tab's colour:
      the fallback is never used for the component's own tasks. */
  lemma NodeTakesTabColour(tasks: seq<Task>, i: nat)
    requires i < |tasks|
    ensures tasks[i].tab in TabColours(tasks)
    ensures NewNode(tasks[i], TabColours(tasks)).background == TabColours(tasks)[tasks[i].tab]
  {
    TabColoursSpec(tasks, i);
  }

  /** The test of the `find` in `handleNodeDoubleClick`: a NaN id equals no
      task id. */
  function IdIs(clicked: Option<int>): Task -> bool {
    (t: Task) => clicked == Some(t.id)
  }

  /** Double clicking a node that `addTaskToTree` made finds the first task
      with that task's id. */
  lemma DoubleClickFindsTask(tasks: seq<Task>, i: nat, colours: map<int, string>)
    requires i < |tasks|
    requires forall j :: 0 <= j < i ==> tasks[j].id != tasks[i].id
    ensures Find(tasks, IdIs(Decimal.ParseNumber(NewNode(tasks[i], colours).id))) == Some(tasks[i])
  {
    Decimal.DecimalRoundTrip(tasks[i].id);
    var r := Find(tasks, IdIs(Some(tasks[i].id)));
    assert IdIs(Some(tasks[i].id))(tasks[i]);
    var k :| 0 <= k < |tasks| && tasks[k] == r.value && IdIs(Some(tasks[i].id))(tasks[k]) &&
             forall j :: 0 <= j < k ==> !IdIs(Some(tasks[i].id))(tasks[j]);
    assert k == i;
  }

  /** A node id that is not a number finds nothing. */
  lemma DoubleClickOnNaN(tasks: seq<Task>, id: string)
    requires Decimal.ParseNumber(id).None?
    ensures Find(tasks, IdIs(Decimal.ParseNumber(id))).None?
  {
  }

  /** `tree_data` of a fetched project: each of its lists may be missing. */
  datatype TreeData = TreeData(nodes: Option<seq<TreeNode>>, edges: Option<seq<Edge>>)

  /** What the GET of the project produced: whether the status was 2xx, and
      `tree_data` (None when missing). */
  datatype ProjectReply = ProjectReply(ok: bool, treeData: Option<TreeData>)

  /** `tree_data?.nodes || []` (an empty array is truthy and kept). */
  function NodesOf(tree: Option<TreeData>): seq<TreeNode> {
    if tree.Some? && tree.value.nodes.Some? then tree.value.nodes.value else []
  }

  function EdgesOf(tree: Option<TreeData>): seq<Edge> {
    if tree.Some? && tree.value.edges.Some? then tree.value.edges.value else []
  }

  /** The tree state of the component: the nodes and edges shown, the trees
      posted to `save_tree`, and the edit dialog. */
  class TreeCanvas {
    var nodes: seq<TreeNode>
    var edges: seq<Edge>
    var saved: seq<(seq<Edge>, seq<TreeNode>)>
    var taskToEdit: Option<Task>
    var isEditMode: bool
    var isTaskDialogOpen: bool

    /** The first version: nothing is being edited. */
    constructor ()
      ensures nodes == [] && edges == [] && saved == []
      ensures taskToEdit.None? && !isEditMode && !isTaskDialogOpen
    {
      nodes, edges, saved := [], [], [];
      taskToEdit, isEditMode, isTaskDialogOpen := None, false, false;
    }

    /** The later version: the edited task starts as the first task
        (undefined for an empty list). */
    constructor WithFirstTask(tasks: seq<Task>)
      ensures nodes == [] && edges == [] && saved == []
      ensures taskToEdit == (if |tasks| > 0 then Some(tasks[0]) else None)
      ensures !isEditMode && !isTaskDialogOpen
    {
      nodes, edges, saved := [], [], [];
      taskToEdit := if |tasks| > 0 then Some(tasks[0]) else None;
      isEditMode, isTaskDialogOpen := false, false;
    }

    /** `fetchProjectTree`: a 2xx answer replaces both lists, a missing list
        becoming empty; a failed or thrown request changes nothing. */
    method LoadTree(response: Stores.Awaited<ProjectReply>)
      modifies this
      ensures response.Value? && response.value.ok ==>
                nodes == NodesOf(response.value.treeData) && edges == EdgesOf(response.value.treeData)
      ensures !(response.Value? && response.value.ok) ==> nodes == old(nodes) && edges == old(edges)
      ensures saved == old(saved) && taskToEdit == old(taskToEdit)
      ensures isEditMode == old(isEditMode) && isTaskDialogOpen == old(isTaskDialogOpen)
    {
      if response.Value? && response.value.ok {
        var tree := response.value.treeData;
        nodes := if tree.Some? && tree.value.nodes.Some? then tree.value.nodes.value else [];
        edges := if tree.Some? && tree.value.edges.Some? then tree.value.edges.value else [];
      }
    }

    /** `addTaskToTree`: exactly one node is appended, with no check for a
        node of the same task, and the new tree is posted. */
    method AddTaskToTree(t: Task, colours: map<int, string>)
      modifies this
      ensures nodes == old(nodes) + [NewNode(t, colours)] && edges == old(edges)
      ensures saved == old(saved) + [(old(edges), nodes)]
      ensures taskToEdit == old(taskToEdit)
      ensures isEditMode == old(isEditMode) && isTaskDialogOpen == old(isTaskDialogOpen)
    {
      var node := TreeNode(Decimal.DecimalString(t.id),
                           NodeData(t.title, OrElse(t.scheduledStart, Unset), OrElse(t.dueDate, Unset)),
                           if t.tab in colours && colours[t.tab] != "" then colours[t.tab] else Fallback);
      nodes := nodes + [node];
      saved := saved + [(edges, nodes)];
    }

    /** `handleNodeDoubleClick`: `Number(node.id)` names the task; if one
        has that id the dialog opens on it in edit mode, else nothing
        changes. */
    method NodeDoubleClick(nodeId: string, tasks: seq<Task>)
      modifies this
      ensures var found := Find(tasks, IdIs(Decimal.ParseNumber(nodeId)));
              && (found.Some? ==> taskToEdit == found && isEditMode && isTaskDialogOpen)
              && (found.None? ==> taskToEdit == old(taskToEdit) && isEditMode == old(isEditMode)
                                  && isTaskDialogOpen == old(isTaskDialogOpen))
      ensures nodes == old(nodes) && edges == old(edges) && saved == old(saved)
    {
      var clickedTaskId := Decimal.ParseNumber(nodeId);
      var clickedTask := Find(tasks, (t: Task) => clickedTaskId == Some(t.id));
      if clickedTask.Some? {
        taskToEdit := clickedTask;
        isEditMode := true;
        isTaskDialogOpen := true;
      }
    }
  }

  /** `s.split(c)[0]`: the text before the first c, or all of s. */
  function BeforeFirst(s: string, c: char): (r: string)
    ensures |r| <= |s| && r == s[..|r|] && c !in r
    ensures r == s <==> c !in s
    ensures c in s ==> s[|r|] == c
  {
    if s == [] then []
    else if s[0] == c then []
    else
      assert s == [s[0]] + s[1..];
      [s[0]] + BeforeFirst(s[1..], c)
  }

  /** Text before a first c is cut exactly there. */
  lemma {:induction false} BeforeFirstAt(a: string, c: char, b: string)
    requires c !in a
    ensures BeforeFirst(a + [c] + b, c) == a
  {
    if a != [] {
      assert (a + [c] + b)[1..] == a[1..] + [c] + b;
      BeforeFirstAt(a[1..], c, b);
    }
  }

  /** `formatDate`, with `new Date` as `parse` (None for an Invalid Date)
      and `toISOString` as `isoOf`: a missing or empty string, or one that
      does not parse, shows as "未設定"; otherwise the ISO text before 'T'.
      A '+hh:mm' offset is cut before parsing; a '-hh:mm' one is kept. */
  function FormatDate(dateString: Option<string>, parse: string -> Option<int>, isoOf: int -> string): (r: string)
    ensures dateString.None? || dateString.value == "" ==> r == Unset
    ensures dateString.Some? && dateString.value != "" ==>
              var s := dateString.value;
              var parsed := parse(if '+' in s then BeforeFirst(s, '+') else s);
              && (parsed.None? ==> r == Unset)
              && (parsed.Some? ==> r == BeforeFirst(isoOf(parsed.value), 'T'))
    ensures r != Unset ==> 'T' !in r
  {
    if dateString.None? || dateString.value == "" then Unset
    else
      var s := dateString.value;
      var date := parse(if '+' in s then BeforeFirst(s, '+') else s);
      if date.None? then Unset else BeforeFirst(isoOf(date.value), 'T')
  }

  /** A date that parses shows the day part of its ISO text: whatever
      comes before the 'T'. */
  lemma FormatDateShowsDay(s: string, parse: string -> Option<int>, isoOf: int -> string, day: string, time: string)
    requires s != "" && '+' !in s && parse(s).Some?
    requires isoOf(parse(s).value) == day + ['T'] + time && 'T' !in day
    ensures FormatDate(Some(s), parse, isoOf) == day
  {
    BeforeFirstAt(day, 'T', time);
  }
}
