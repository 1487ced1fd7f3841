/**
  The list view's derived projection: filter by tab, search title or
  description, sort by due date; and the per-tab counts.
 */
module TaskList {
  import opened ClientTask
  import JsText

  /** The three tabs: "all", "active" and "completed". */
  datatype Filter = All | Active | Completed

  /** The callback `(t) => !t.completed`, shared by the "active" tab and its count. */
  predicate IsActive(t: Task) {
    !t.completed
  }

  /** The callback `(t) => t.completed`, shared by the "completed" tab and its count. */
  predicate IsDone(t: Task) {
    t.completed
  }

  /** `s.filter(p)`: the elements satisfying `p`, in their original order. */
  function Keep(s: seq<Task>, p: Task -> bool): (r: seq<Task>)
    ensures forall t :: multiset(r)[t] == if p(t) then multiset(s)[t] else 0
  {
    if s == [] then []
    else
      assert s == [s[0]] + s[1..];
      (if p(s[0]) then [s[0]] else []) + Keep(s[1..], p)
  }

  /** Filtering never lengthens a list. */
  lemma {:induction false} KeepNoLonger(s: seq<Task>, p: Task -> bool)
    ensures |Keep(s, p)| <= |s|
  {
    if s != [] {
      KeepNoLonger(s[1..], p);
    }
  }

  /** Filtering a list with a known first element. */
  lemma KeepCons(x: Task, r: seq<Task>, p: Task -> bool)
    ensures Keep([x] + r, p) == (if p(x) then [x] else []) + Keep(r, p)
  {
    assert ([x] + r)[1..] == r;
  }

  /** Filtering keeps order: filtering a concatenation concatenates the filtered parts. */
  lemma {:induction false} KeepDistributes(a: seq<Task>, b: seq<Task>, p: Task -> bool)
    ensures Keep(a + b, p) == Keep(a, p) + Keep(b, p)
  {
    if a == [] {
      assert a + b == b;
    } else {
      assert (a + b)[1..] == a[1..] + b;
      KeepDistributes(a[1..], b, p);
    }
  }

  /** Filters that agree on every task keep the same elements. */
  lemma {:induction false} KeepCongruent(s: seq<Task>, p: Task -> bool, q: Task -> bool)
    requires forall t :: p(t) == q(t)
    ensures Keep(s, p) == Keep(s, q)
  {
    if s != [] {
      KeepCongruent(s[1..], p, q);
    }
  }

  /** Two filters in a row are one filter by the conjunction. */
  lemma {:induction false} KeepTwice(s: seq<Task>, p: Task -> bool, q: Task -> bool, both: Task -> bool)
    requires forall t :: both(t) == (p(t) && q(t))
    ensures Keep(Keep(s, p), q) == Keep(s, both)
  {
    if s != [] {
      KeepTwice(s[1..], p, q, both);
      var tail := Keep(s[1..], p);
      if p(s[0]) {
        assert Keep(s, p) == [s[0]] + tail;
        assert ([s[0]] + tail)[1..] == tail;
      } else {
        assert Keep(s, p) == tail;
      }
    }
  }

  /** A filter that accepts everything is the identity. */
  lemma {:induction false} KeepAll(s: seq<Task>, p: Task -> bool)
    requires forall t :: p(t)
    ensures Keep(s, p) == s
  {
    if s != [] {
      KeepAll(s[1..], p);
      assert s == [s[0]] + s[1..];
    }
  }

  predicate PassesTab(filter: Filter, t: Task) {
    match filter
    case All => true
    case Active => IsActive(t)
    case Completed => IsDone(t)
  }

  /** The tab stage of the pipeline; "all" copies the list. */
  function ByTab(tasks: seq<Task>, filter: Filter): seq<Task> {
    match filter
    case All => tasks
    case Active => Keep(tasks, IsActive)
    case Completed => Keep(tasks, IsDone)
  }

  /** Whether a task matches an already lower-cased query. */
  predicate MatchesQuery(t: Task, query: string) {
    || JsText.Includes(JsText.Lower(t.title), query)
    || (t.description != "" && JsText.Includes(JsText.Lower(t.description), query))
  }

  /** The search stage: a blank query (after trim) filters nothing; otherwise the untrimmed query is lower-cased. */
  function BySearch(tasks: seq<Task>, searchQuery: string): seq<Task> {
    if JsText.Trim(searchQuery) == [] then tasks
    else
      var query := JsText.Lower(searchQuery);
      Keep(tasks, t => MatchesQuery(t, query))
  }

  /** `a` may precede `b` in the sorted list: `a`'s due date is not after `b`'s. */
  predicate DueNotAfter(a: Task, b: Task) {
    !JsText.Less(b.dueDate, a.dueDate)
  }

  predicate SortedByDueDate(s: seq<Task>) {
    forall i, j :: 0 <= i < j < |s| ==> DueNotAfter(s[i], s[j])
  }

  /** Places `t` before the first element whose due date is not earlier than its own. */
  function Insert(t: Task, s: seq<Task>): (r: seq<Task>)
    requires SortedByDueDate(s)
    ensures SortedByDueDate(r)
    ensures multiset(r) == multiset(s) + multiset{t}
  {
    if s == [] || !JsText.Less(s[0].dueDate, t.dueDate) then
      PrependSorted(t, s);
      [t] + s
    else
      var rest := Insert(t, s[1..]);
      JsText.LessAsymmetric(s[0].dueDate, t.dueDate);
      PrependBeforeInserted(s, t, rest);
      [s[0]] + rest
  }

  /** `t` may go first when it is not due after the current head. */
  lemma PrependSorted(t: Task, s: seq<Task>)
    requires SortedByDueDate(s)
    requires s == [] || DueNotAfter(t, s[0])
    ensures SortedByDueDate([t] + s)
  {
    forall j | 0 <= j < |s|
      ensures DueNotAfter(t, s[j])
    {
      if j > 0 {
        assert DueNotAfter(s[0], s[j]);
        JsText.NotLessTransitive(t.dueDate, s[0].dueDate, s[j].dueDate);
      }
    }
  }

  /** The old head stays first when `t` went into the tail after it. */
  lemma PrependBeforeInserted(s: seq<Task>, t: Task, rest: seq<Task>)
    requires s != [] && SortedByDueDate(s) && SortedByDueDate(rest)
    requires multiset(rest) == multiset(s[1..]) + multiset{t}
    requires DueNotAfter(s[0], t)
    ensures SortedByDueDate([s[0]] + rest)
    ensures multiset([s[0]] + rest) == multiset(s) + multiset{t}
  {
    assert s == [s[0]] + s[1..];
    forall j | 0 <= j < |rest|
      ensures DueNotAfter(s[0], rest[j])
    {
      assert rest[j] in multiset(rest);
      if rest[j] != t {
        assert rest[j] in s[1..];
      }
    }
  }

  /** `result.sort(...)` by due date: a stable insertion sort. */
  function SortByDueDate(s: seq<Task>): (r: seq<Task>)
    ensures SortedByDueDate(r)
    ensures multiset(r) == multiset(s)
  {
    if s == [] then []
    else
      assert s == [s[0]] + s[1..];
      Insert(s[0], SortByDueDate(s[1..]))
  }

  /** The tasks of `s` due on `date`, in order. */
  function DueOn(s: seq<Task>, date: string): seq<Task> {
    if s == [] then []
    else (if s[0].dueDate == date then [s[0]] else []) + DueOn(s[1..], date)
  }

  /** `DueOn` of a list with a known first element. */
  lemma DueOnCons(x: Task, r: seq<Task>, date: string)
    ensures DueOn([x] + r, date) == (if x.dueDate == date then [x] else []) + DueOn(r, date)
  {
    assert ([x] + r)[1..] == r;
  }

  lemma {:induction false} InsertDueOn(t: Task, s: seq<Task>, date: string)
    requires SortedByDueDate(s)
    ensures DueOn(Insert(t, s), date) == (if t.dueDate == date then [t] else []) + DueOn(s, date)
  {
    if s == [] || !JsText.Less(s[0].dueDate, t.dueDate) {
      DueOnCons(t, s, date);
    } else {
      var rest := Insert(t, s[1..]);
      InsertDueOn(t, s[1..], date);
      DueOnCons(s[0], rest, date);
      JsText.LessIrreflexive(t.dueDate);
    }
  }

  /** The sort is stable: tasks sharing a due date keep their relative order. */
  lemma {:induction false} SortIsStable(s: seq<Task>, date: string)
    ensures DueOn(SortByDueDate(s), date) == DueOn(s, date)
  {
    if s != [] {
      SortIsStable(s[1..], date);
      InsertDueOn(s[0], SortByDueDate(s[1..]), date);
    }
  }

  /** Filtering commutes with picking the tasks due on one date. */
  lemma {:induction false} DueOnKeep(s: seq<Task>, p: Task -> bool, date: string)
    ensures DueOn(Keep(s, p), date) == Keep(DueOn(s, date), p)
  {
    if s != [] {
      var x := s[0];
      var tail := s[1..];
      var picked := if x.dueDate == date then [x] else [];
      DueOnKeep(tail, p, date);
      assert DueOn(s, date) == picked + DueOn(tail, date);
      KeepDistributes(picked, DueOn(tail, date), p);
      KeepCons(x, [], p);
      assert [x] + [] == [x];
      if p(x) {
        assert Keep(s, p) == [x] + Keep(tail, p);
        DueOnCons(x, Keep(tail, p), date);
      } else {
        assert Keep(s, p) == Keep(tail, p);
      }
    }
  }

  /** A task survives the pipeline exactly when it is on the tab and matches the search. */
  predicate Selected(t: Task, filter: Filter, searchQuery: string) {
    && PassesTab(filter, t)
    && (JsText.Trim(searchQuery) == [] || MatchesQuery(t, JsText.Lower(searchQuery)))
  }

  /** `filteredTasks`: tab filter, then search, then sort by due date. */
  function FilteredTasks(tasks: seq<Task>, filter: Filter, searchQuery: string): (r: seq<Task>)
    ensures SortedByDueDate(r)
    ensures forall t :: multiset(r)[t] == if Selected(t, filter, searchQuery) then multiset(tasks)[t] else 0
  {
    var onTab := ByTab(tasks, filter);
    ByTabCounts(tasks, filter);
    BySearchCounts(onTab, searchQuery);
    SortByDueDate(BySearch(onTab, searchQuery))
  }

  lemma ByTabCounts(tasks: seq<Task>, filter: Filter)
    ensures forall t :: multiset(ByTab(tasks, filter))[t] == if PassesTab(filter, t) then multiset(tasks)[t] else 0
  {
  }

  lemma BySearchCounts(tasks: seq<Task>, searchQuery: string)
    ensures forall t :: multiset(BySearch(tasks, searchQuery))[t] ==
                        if JsText.Trim(searchQuery) == [] || MatchesQuery(t, JsText.Lower(searchQuery))
                        then multiset(tasks)[t] else 0
  {
  }

  /** The tab and search stages together are one filter by `Selected`, in the fetched order. */
  lemma PipelineIsKeep(tasks: seq<Task>, filter: Filter, searchQuery: string)
    ensures BySearch(ByTab(tasks, filter), searchQuery) == Keep(tasks, t => Selected(t, filter, searchQuery))
  {
    var tab := t => PassesTab(filter, t);
    var search := t => JsText.Trim(searchQuery) == [] || MatchesQuery(t, JsText.Lower(searchQuery));
    var selected := t => Selected(t, filter, searchQuery);
    var onTab := ByTab(tasks, filter);
    match filter {
      case All => KeepAll(tasks, tab);
      case Active => KeepCongruent(tasks, IsActive, tab);
      case Completed => KeepCongruent(tasks, IsDone, tab);
    }
    assert onTab == Keep(tasks, tab);
    if JsText.Trim(searchQuery) == [] {
      KeepAll(onTab, search);
    } else {
      KeepCongruent(onTab, t => MatchesQuery(t, JsText.Lower(searchQuery)), search);
    }
    assert BySearch(onTab, searchQuery) == Keep(onTab, search);
    KeepTwice(tasks, tab, search, selected);
  }

  /**
    Tasks that share a due date appear in the order they were fetched: the
    list's tasks due on `date` are exactly the selected fetched tasks due on
    `date`, in order.
   */
  lemma FilteredKeepsFetchedOrder(tasks: seq<Task>, filter: Filter, searchQuery: string, date: string)
    ensures DueOn(FilteredTasks(tasks, filter, searchQuery), date)
         == Keep(DueOn(tasks, date), t => Selected(t, filter, searchQuery))
  {
    var selected := t => Selected(t, filter, searchQuery);
    var kept := BySearch(ByTab(tasks, filter), searchQuery);
    SortIsStable(kept, date);
    PipelineIsKeep(tasks, filter, searchQuery);
    DueOnKeep(tasks, selected, date);
  }

  /** With the "all" tab and a blank query the list is a reordering of every task. */
  lemma AllTabBlankQueryIsPermutation(tasks: seq<Task>, searchQuery: string)
    requires JsText.Trim(searchQuery) == []
    ensures multiset(FilteredTasks(tasks, All, searchQuery)) == multiset(tasks)
  {
    var r := FilteredTasks(tasks, All, searchQuery);
    assert forall t :: multiset(r)[t] == multiset(tasks)[t];
  }

  /** The "active" tab shows exactly the open tasks and the "completed" tab exactly the finished ones. */
  lemma TabsSelectExactly(tasks: seq<Task>, searchQuery: string, t: Task)
    requires JsText.Trim(searchQuery) == []
    ensures t in FilteredTasks(tasks, Active, searchQuery) <==> t in tasks && !t.completed
    ensures t in FilteredTasks(tasks, Completed, searchQuery) <==> t in tasks && t.completed
  {
    assert t in FilteredTasks(tasks, Active, searchQuery) <==> t in multiset(FilteredTasks(tasks, Active, searchQuery));
    assert t in FilteredTasks(tasks, Completed, searchQuery) <==> t in multiset(FilteredTasks(tasks, Completed, searchQuery));
  }

  /** A non-blank query keeps a task exactly when its title or non-empty description contains the lower-cased query. */
  lemma SearchSelectsExactly(tasks: seq<Task>, searchQuery: string, t: Task)
    requires JsText.Trim(searchQuery) != []
    ensures t in FilteredTasks(tasks, All, searchQuery) <==>
      t in tasks && MatchesQuery(t, JsText.Lower(searchQuery))
  {
    assert t in FilteredTasks(tasks, All, searchQuery) <==> t in multiset(FilteredTasks(tasks, All, searchQuery));
  }

  /** Nothing is added or duplicated: the output is a sub-multiset of the input. */
  lemma FilteredIsSubMultiset(tasks: seq<Task>, filter: Filter, searchQuery: string)
    ensures multiset(FilteredTasks(tasks, filter, searchQuery)) <= multiset(tasks)
    ensures |FilteredTasks(tasks, filter, searchQuery)| <= |tasks|
  {
    var r := FilteredTasks(tasks, filter, searchQuery);
    assert forall t :: multiset(r)[t] <= multiset(tasks)[t];
    assert |multiset(r)| <= |multiset(tasks)| by {
      var d := multiset(tasks) - multiset(r);
      assert multiset(tasks) == multiset(r) + d;
    }
  }

  /** The "Active (n)" tab count. */
  function ActiveCount(tasks: seq<Task>): (n: nat)
    ensures n == 0 <==> forall i :: 0 <= i < |tasks| ==> tasks[i].completed
  {
    var open := Keep(tasks, IsActive);
    NoneKept(tasks, IsActive);
    |open|
  }

  /** The "Completed (n)" tab count. */
  function CompletedCount(tasks: seq<Task>): (n: nat)
    ensures n == 0 <==> forall i :: 0 <= i < |tasks| ==> !tasks[i].completed
  {
    var done := Keep(tasks, IsDone);
    NoneKept(tasks, IsDone);
    |done|
  }

  /** A filter keeps nothing exactly when no element passes it. */
  lemma NoneKept(s: seq<Task>, p: Task -> bool)
    ensures Keep(s, p) == [] <==> forall i :: 0 <= i < |s| ==> !p(s[i])
  {
    var r := Keep(s, p);
    if r == [] {
      forall i | 0 <= i < |s|
        ensures !p(s[i])
      {
        assert s[i] in multiset(s);
        assert multiset(r)[s[i]] == 0;
      }
    } else {
      assert r[0] in multiset(r);
      assert r[0] in s;
    }
  }

  /** Every task is counted in exactly one of the two tabs. */
  lemma {:induction false} CountsPartition(tasks: seq<Task>)
    ensures ActiveCount(tasks) + CompletedCount(tasks) == |tasks|
  {
    if tasks != [] {
      CountsPartition(tasks[1..]);
    }
  }

  /** The "active" count is the size of the "active" tab under a blank query, whatever the current tab and query. */
  lemma ActiveCountMatchesActiveTab(tasks: seq<Task>)
    ensures ActiveCount(tasks) == |FilteredTasks(tasks, Active, "")|
  {
    var r := FilteredTasks(tasks, Active, "");
    var k := Keep(tasks, IsActive);
    assert multiset(r) == multiset(k);
    assert |r| == |multiset(r)| && |k| == |multiset(k)|;
  }

  /** The "completed" count is the size of the "completed" tab under a blank query. */
  lemma CompletedCountMatchesCompletedTab(tasks: seq<Task>)
    ensures CompletedCount(tasks) == |FilteredTasks(tasks, Completed, "")|
  {
    var r := FilteredTasks(tasks, Completed, "");
    var k := Keep(tasks, IsDone);
    assert multiset(r) == multiset(k);
    assert |r| == |multiset(r)| && |k| == |multiset(k)|;
  }
}
