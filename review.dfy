/** The review section (components/ReviewSection.tsx): the completed tasks
    and four sections, each listing them by one numeric property in
    descending order, with "未入力" for a falsy value. */
module Review {
  import opened Types
  import opened Seqs
  import Decimal

  /** `completedTasks`: the tasks whose status is exactly done, in order. */
  function Completed(tasks: seq<Task>): (r: seq<Task>)
    ensures forall i :: 0 <= i < |r| ==> r[i].status == Done
  {
    Filter(tasks, (t: Task) => t.status == Done)
  }

  lemma CompletedIff(tasks: seq<Task>, t: Task)
    ensures t in Completed(tasks) <==> t in tasks && t.status == Done
  {
    FilterMembers(tasks, (t: Task) => t.status == Done);
  }

  /** The property a section sorts by. */
  datatype SortKey = Difficulty | Achievement | ExpectedWorkTime | Overtime

  function Field(t: Task, k: SortKey): Option<int> {
    match k
    case Difficulty => t.difficulty
    case Achievement => t.achievement
    case ExpectedWorkTime => t.expectedWorkTime
    case Overtime => t.overtime
  }

  /** `task[sortKey] ?? 0`: the value the comparator uses. */
  function KeyValue(t: Task, k: SortKey): int {
    var v := Field(t, k);
    if v.Some? then v.value else 0
  }

  /** The comparator's value as a function of the task. */
  function Key(k: SortKey): Task -> int {
    (t: Task) => KeyValue(t, k)
  }

  predicate SortedBy<T>(s: seq<T>, key: T -> int) {
    forall i, j :: 0 <= i < j < |s| ==> key(s[i]) >= key(s[j])
  }

  /** Inserts x before the first element with a smaller value, so after
      every element whose value is at least x's. */
  function InsertBy<T>(s: seq<T>, x: T, key: T -> int): (r: seq<T>)
    ensures multiset(r) == multiset(s) + multiset{x}
    ensures |r| == |s| + 1
  {
    if s == [] then [x]
    else if key(s[0]) < key(x) then [x] + s
    else
      assert s == [s[0]] + s[1..];
      [s[0]] + InsertBy(s[1..], x, key)
  }

  lemma SortedTail<T>(s: seq<T>, key: T -> int)
    requires SortedBy(s, key) && s != []
    ensures SortedBy(s[1..], key)
    ensures forall j :: 0 <= j < |s| ==> key(s[0]) >= key(s[j])
  {
    forall i, j | 0 <= i < j < |s[1..]|
      ensures key(s[1..][i]) >= key(s[1..][j])
    {
      assert s[1..][i] == s[i + 1] && s[1..][j] == s[j + 1];
    }
  }

  lemma {:induction false} InsertSorted<T>(s: seq<T>, x: T, key: T -> int)
    requires SortedBy(s, key)
    ensures SortedBy(InsertBy(s, x, key), key)
  {
    if s != [] && key(s[0]) >= key(x) {
      SortedTail(s, key);
      InsertSorted(s[1..], x, key);
      var rest := InsertBy(s[1..], x, key);
      assert InsertBy(s, x, key) == [s[0]] + rest;
      forall j | 0 <= j < |rest|
        ensures key(s[0]) >= key(rest[j])
      {
        assert rest[j] in multiset(rest);
        if rest[j] in multiset(s[1..]) {
          var m :| 0 <= m < |s[1..]| && s[1..][m] == rest[j];
          assert s[m + 1] == rest[j];
        }
      }
    }
  }

  /** A stable sort, non-increasing by key: each element in turn is
      inserted after those with a value at least its own. */
  function SortBy<T>(xs: seq<T>, key: T -> int): (r: seq<T>)
    ensures multiset(r) == multiset(xs) && |r| == |xs|
    decreases |xs|
  {
    if xs == [] then []
    else
      var pre := xs[..|xs| - 1];
      assert xs == pre + [xs[|xs| - 1]];
      InsertBy(SortBy(pre, key), xs[|xs| - 1], key)
  }

  lemma {:induction false} SortBySorted<T>(xs: seq<T>, key: T -> int)
    ensures SortedBy(SortBy(xs, key), key)
    decreases |xs|
  {
    if xs != [] {
      SortBySorted(xs[..|xs| - 1], key);
      InsertSorted(SortBy(xs[..|xs| - 1], key), xs[|xs| - 1], key);
    }
  }

  function HasValue<T>(key: T -> int, v: int): T -> bool {
    (t: T) => key(t) == v
  }

  /** When x goes in front, no element of s has x's value. */
  lemma InsertAtHeadStable<T>(s: seq<T>, x: T, key: T -> int, v: int)
    requires SortedBy(s, key) && s != [] && key(s[0]) < key(x)
    ensures Filter([x] + s, HasValue(key, v)) ==
              Filter(s, HasValue(key, v)) + (if key(x) == v then [x] else [])
  {
    var p := HasValue(key, v);
    FilterConcat([x], s, p);
    FilterSingleton(x, p);
    if key(x) == v {
      SortedTail(s, key);
      FilterNone(s, p);
    }
  }

  /** Inserting x keeps the elements of every value in order, x coming
      after those of its own value. */
  lemma {:induction false} InsertStable<T>(s: seq<T>, x: T, key: T -> int, v: int)
    requires SortedBy(s, key)
    ensures Filter(InsertBy(s, x, key), HasValue(key, v)) ==
              Filter(s, HasValue(key, v)) + (if key(x) == v then [x] else [])
  {
    var p := HasValue(key, v);
    if s == [] {
      FilterSingleton(x, p);
    } else if key(s[0]) < key(x) {
      InsertAtHeadStable(s, x, key, v);
    } else {
      SortedTail(s, key);
      InsertStable(s[1..], x, key, v);
      assert s == [s[0]] + s[1..];
      assert InsertBy(s, x, key) == [s[0]] + InsertBy(s[1..], x, key);
      ConsStable(s[0], s[1..], InsertBy(s[1..], x, key), p, if key(x) == v then [x] else []);
    }
  }

  lemma ConcatAssoc<T>(a: seq<T>, b: seq<T>, c: seq<T>)
    ensures a + (b + c) == (a + b) + c
  {
  }

  /** Putting the same element in front of two lists whose filtered
      elements agree up to a common tail keeps them agreeing. */
  lemma ConsStable<T>(h: T, rest: seq<T>, ins: seq<T>, p: T -> bool, tail: seq<T>)
    requires Filter(ins, p) == Filter(rest, p) + tail
    ensures Filter([h] + ins, p) == Filter([h] + rest, p) + tail
  {
    FilterConcat([h], rest, p);
    FilterConcat([h], ins, p);
    ConcatAssoc(Filter([h], p), Filter(rest, p), tail);
  }

  /** The sort is stable: for every value the elements with that value keep
      their input order. */
  lemma {:induction false} SortByStable<T>(xs: seq<T>, key: T -> int, v: int)
    ensures Filter(SortBy(xs, key), HasValue(key, v)) == Filter(xs, HasValue(key, v))
    decreases |xs|
  {
    if xs != [] {
      var pre := xs[..|xs| - 1];
      var x := xs[|xs| - 1];
      var p := HasValue(key, v);
      var sorted := SortBy(pre, key);
      assert xs == pre + [x];
      assert SortBy(xs, key) == InsertBy(sorted, x, key);
      SortByStable(pre, key, v);
      SortBySorted(pre, key);
      InsertStable(sorted, x, key, v);
      FilterSnoc(pre, x, p);
    }
  }

  /** `[...completedTasks].sort((a, b) => (b[k] ?? 0) - (a[k] ?? 0))`: the
      sort of JavaScript is stable, and the comparator orders by the value
      descending. The copy leaves `completedTasks` itself as it was. */
  function SortDesc(xs: seq<Task>, k: SortKey): (r: seq<Task>)
    ensures multiset(r) == multiset(xs) && |r| == |xs|
  {
    SortBy(xs, Key(k))
  }

  /** The tasks with value v, in order. */
  function WithValue(s: seq<Task>, k: SortKey, v: int): seq<Task> {
    Filter(s, HasValue(Key(k), v))
  }

  /** A section's order: non-increasing by the value, and for every value
      the tasks with it in their input order. */
  lemma SortDescSpec(xs: seq<Task>, k: SortKey, v: int)
    ensures forall i, j :: 0 <= i < j < |SortDesc(xs, k)| ==>
              KeyValue(SortDesc(xs, k)[i], k) >= KeyValue(SortDesc(xs, k)[j], k)
    ensures WithValue(SortDesc(xs, k), k, v) == WithValue(xs, k, v)
  {
    SortBySorted(xs, Key(k));
    SortByStable(xs, Key(k), v);
  }

  const Unentered: string := "未入力"

  /** `task[sortKey] ? task[sortKey] : "未入力"`: null, undefined and 0 are
      falsy and show the placeholder; any other number shows as text. */
  function Display(t: Task, k: SortKey): (r: string)
    ensures r == Unentered <==> Field(t, k).None? || Field(t, k).value == 0
  {
    var v := Field(t, k);
    if v.None? || v.value == 0 then Unentered else Decimal.DecimalString(v.value)
  }

  /** One rendered section: its title and its rows (task and shown value). */
  datatype Section = Section(title: string, key: SortKey, rows: seq<(Task, string)>)

  function Rows(sorted: seq<Task>, k: SortKey): (r: seq<(Task, string)>)
    ensures |r| == |sorted|
    ensures forall i :: 0 <= i < |r| ==> r[i] == (sorted[i], Display(sorted[i], k))
  {
    if sorted == [] then [] else [(sorted[0], Display(sorted[0], k))] + Rows(sorted[1..], k)
  }

  function RenderSection(completed: seq<Task>, k: SortKey): Section {
    Section(Title(k), k, Rows(SortDesc(completed, k), k))
  }

  /** The heading of each section. */
  function Title(k: SortKey): string {
    match k
    case Difficulty => "難易度"
    case Achievement => "達成度"
    case ExpectedWorkTime => "想定作業時間(分)"
    case Overtime => "超過時間(分)"
  }

  /** The sections' fixed order on the page. */
  const Order: seq<SortKey> := [Difficulty, Achievement, ExpectedWorkTime, Overtime]

  /** The four sections, one per property, in their fixed order. */
  function Sections(completed: seq<Task>): (r: seq<Section>)
    ensures |r| == |Order| == 4
    ensures forall i :: 0 <= i < 4 ==> r[i].key == Order[i] && r[i] == RenderSection(completed, Order[i])
  {
    seq(4, i requires 0 <= i < 4 => RenderSection(completed, Order[i]))
  }

  /** Each property has its own section. */
  lemma SectionsCover(completed: seq<Task>, k: SortKey)
    ensures exists i :: 0 <= i < 4 && Sections(completed)[i].key == k
  {
    match k
    case Difficulty => assert Sections(completed)[0].key == k;
    case Achievement => assert Sections(completed)[1].key == k;
    case ExpectedWorkTime => assert Sections(completed)[2].key == k;
    case Overtime => assert Sections(completed)[3].key == k;
  }

  /** Every section lists exactly the completed tasks, each as often as it
      occurs, sorted by the section's value, ties in input order, each with
      its shown value. */
  lemma SectionsSpec(tasks: seq<Task>, k: SortKey, v: int)
    ensures var s := RenderSection(Completed(tasks), k);
            var listed := SortDesc(Completed(tasks), k);
            && |s.rows| == |listed|
            && (forall j :: 0 <= j < |s.rows| ==> s.rows[j] == (listed[j], Display(listed[j], k)))
            && multiset(listed) == multiset(Completed(tasks))
            && (forall i, j :: 0 <= i < j < |listed| ==> KeyValue(listed[i], k) >= KeyValue(listed[j], k))
            && WithValue(listed, k, v) == WithValue(Completed(tasks), k, v)
  {
    SortDescSpec(Completed(tasks), k, v);
  }
}
