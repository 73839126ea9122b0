/** The assignment board of src/components/ShiftManagement.tsx: guards are
    dragged onto posts and patrol rounds; every drop appends one entry to the
    post or patrol ledger and writes that ledger back to the stored record.
    The board answers who was placed on a target, and shows one history of
    both ledgers, latest first. */
module ShiftManagementScreen {
  import opened GuardTypes
  import opened Storage
  import opened UseAlertMonitor

  // ---------------------------------------------------------------------
  // Per-target queries

  /** `getGuardsForPost`: the guards of the post entries for `post`, in ledger order. */
  function GuardsAtPost(assignments: seq<Assignment>, post: string): (guards: seq<string>)
    ensures |guards| <= |assignments|
  {
    if |assignments| == 0 then []
    else
      var head := if assignments[0].post == post then [assignments[0].guard] else [];
      head + GuardsAtPost(assignments[1..], post)
  }

  /** `getGuardsForPatrol`: the guards of the patrol entries for `patrol`, in ledger order. */
  function GuardsOnPatrol(patrols: seq<PatrolAssignment>, patrol: string): (guards: seq<string>)
    ensures |guards| <= |patrols|
  {
    if |patrols| == 0 then []
    else
      var head := if patrols[0].patrol == patrol then [patrols[0].guard] else [];
      head + GuardsOnPatrol(patrols[1..], patrol)
  }

  /** The query distributes over a split of the ledger: entries keep their
      order and duplicates are kept. */
  lemma {:induction false} GuardsAtPostAppend(s: seq<Assignment>, t: seq<Assignment>, post: string)
    ensures GuardsAtPost(s + t, post) == GuardsAtPost(s, post) + GuardsAtPost(t, post)
  {
    if |s| > 0 {
      assert (s + t)[1..] == s[1..] + t;
      GuardsAtPostAppend(s[1..], t, post);
    } else {
      assert s + t == t;
    }
  }

  lemma {:induction false} GuardsOnPatrolAppend(s: seq<PatrolAssignment>, t: seq<PatrolAssignment>, patrol: string)
    ensures GuardsOnPatrol(s + t, patrol) == GuardsOnPatrol(s, patrol) + GuardsOnPatrol(t, patrol)
  {
    if |s| > 0 {
      assert (s + t)[1..] == s[1..] + t;
      GuardsOnPatrolAppend(s[1..], t, patrol);
    } else {
      assert s + t == t;
    }
  }

  /** A guard is listed for a post exactly when some ledger entry puts them there. */
  lemma {:induction false} GuardsAtPostMembership(s: seq<Assignment>, post: string, guard: string)
    ensures guard in GuardsAtPost(s, post) <==> exists i | 0 <= i < |s| :: s[i].post == post && s[i].guard == guard
  {
    if |s| > 0 {
      GuardsAtPostMembership(s[1..], post, guard);
      if guard in GuardsAtPost(s[1..], post) {
        var i :| 0 <= i < |s[1..]| && s[1..][i].post == post && s[1..][i].guard == guard;
        assert s[i + 1].post == post && s[i + 1].guard == guard;
      }
      if exists i | 0 <= i < |s| :: s[i].post == post && s[i].guard == guard {
        var i :| 0 <= i < |s| && s[i].post == post && s[i].guard == guard;
        if i > 0 {
          assert s[1..][i - 1] == s[i];
        }
      }
    }
  }

  /** A guard is listed for a patrol exactly when some ledger entry puts them there. */
  lemma {:induction false} GuardsOnPatrolMembership(s: seq<PatrolAssignment>, patrol: string, guard: string)
    ensures guard in GuardsOnPatrol(s, patrol) <==> exists i | 0 <= i < |s| :: s[i].patrol == patrol && s[i].guard == guard
  {
    if |s| > 0 {
      GuardsOnPatrolMembership(s[1..], patrol, guard);
      if guard in GuardsOnPatrol(s[1..], patrol) {
        var i :| 0 <= i < |s[1..]| && s[1..][i].patrol == patrol && s[1..][i].guard == guard;
        assert s[i + 1].patrol == patrol && s[i + 1].guard == guard;
      }
      if exists i | 0 <= i < |s| :: s[i].patrol == patrol && s[i].guard == guard {
        var i :| 0 <= i < |s| && s[i].patrol == patrol && s[i].guard == guard;
        if i > 0 {
          assert s[1..][i - 1] == s[i];
        }
      }
    }
  }

  // ---------------------------------------------------------------------
  // History

  /** A patrol entry shown in the history, with its round in place of a post. */
  function PatrolAsPost(p: PatrolAssignment): (a: Assignment)
    ensures a.guard == p.guard && a.post == p.patrol && a.time == p.time
  {
    Assignment(p.id, p.guard, p.patrol, p.time, p.actualTime)
  }

  function PatrolsAsPosts(patrols: seq<PatrolAssignment>): (r: seq<Assignment>)
    ensures |r| == |patrols|
    ensures forall i | 0 <= i < |patrols| :: r[i] == PatrolAsPost(patrols[i])
  {
    seq(|patrols|, i requires 0 <= i < |patrols| => PatrolAsPost(patrols[i]))
  }

  /** The patrol query is the post query over the relabelled patrol ledger. */
  lemma {:induction false} PatrolQueryIsPostQuery(patrols: seq<PatrolAssignment>, patrol: string)
    ensures GuardsOnPatrol(patrols, patrol) == GuardsAtPost(PatrolsAsPosts(patrols), patrol)
  {
    if |patrols| > 0 {
      PatrolQueryIsPostQuery(patrols[1..], patrol);
      assert PatrolsAsPosts(patrols)[1..] == PatrolsAsPosts(patrols[1..]);
    }
  }

  /** Latest first: times never increase along the sequence. */
  predicate SortedByTimeDesc(s: seq<Assignment>) {
    forall i, j | 0 <= i < j < |s| :: s[i].time >= s[j].time
  }

  /** The entries of `s` with time `t`, in order. */
  function WithTime(s: seq<Assignment>, t: int): seq<Assignment> {
    if |s| == 0 then []
    else (if s[0].time == t then [s[0]] else []) + WithTime(s[1..], t)
  }

  /** Places `x` before the first entry that is not later than it. */
  function Insert(x: Assignment, s: seq<Assignment>): (r: seq<Assignment>)
    ensures |r| == |s| + 1
  {
    if |s| == 0 || s[0].time <= x.time then [x] + s
    else [s[0]] + Insert(x, s[1..])
  }

  /** `.sort((a, b) => time(b) - time(a))`: ECMAScript's sort is stable, so
      this is the stable sort latest first, here by insertion. */
  function SortByTimeDesc(s: seq<Assignment>): (r: seq<Assignment>)
    ensures |r| == |s|
  {
    if |s| == 0 then []
    else Insert(s[0], SortByTimeDesc(s[1..]))
  }

  lemma {:induction false} InsertPermutation(x: Assignment, s: seq<Assignment>)
    ensures multiset(Insert(x, s)) == multiset(s) + multiset{x}
  {
    if |s| > 0 && s[0].time > x.time {
      InsertPermutation(x, s[1..]);
      assert s == [s[0]] + s[1..];
    }
  }

  /** The history sort only reorders: it is a permutation of its input. */
  lemma {:induction false} SortByTimeDescPermutation(s: seq<Assignment>)
    ensures multiset(SortByTimeDesc(s)) == multiset(s)
  {
    if |s| > 0 {
      SortByTimeDescPermutation(s[1..]);
      InsertPermutation(s[0], SortByTimeDesc(s[1..]));
      assert s == [s[0]] + s[1..];
    }
  }

  lemma {:induction false} InsertSorted(x: Assignment, s: seq<Assignment>)
    requires SortedByTimeDesc(s)
    ensures SortedByTimeDesc(Insert(x, s))
  {
    if |s| > 0 && s[0].time > x.time {
      InsertSorted(x, s[1..]);
      InsertPermutation(x, s[1..]);
      var r := Insert(x, s);
      forall j | 0 < j < |r| ensures r[0].time >= r[j].time {
        assert r[j] in multiset(Insert(x, s[1..]));
        assert r[j] in multiset(s[1..]) + multiset{x};
        if r[j] != x {
          var k :| 0 <= k < |s[1..]| && s[1..][k] == r[j];
          assert s[k + 1] == r[j];
        }
      }
    }
  }

  /** The history order is latest first. */
  lemma {:induction false} SortByTimeDescSorted(s: seq<Assignment>)
    ensures SortedByTimeDesc(SortByTimeDesc(s))
  {
    if |s| > 0 {
      SortByTimeDescSorted(s[1..]);
      InsertSorted(s[0], SortByTimeDesc(s[1..]));
    }
  }

  lemma {:induction false} InsertStable(x: Assignment, s: seq<Assignment>, t: int)
    ensures WithTime(Insert(x, s), t) == (if x.time == t then [x] else []) + WithTime(s, t)
  {
    if |s| == 0 || s[0].time <= x.time {
      assert ([x] + s)[1..] == s;
    } else {
      var rest := Insert(x, s[1..]);
      InsertStable(x, s[1..], t);
      assert ([s[0]] + rest)[1..] == rest;
      assert WithTime(s, t) == (if s[0].time == t then [s[0]] else []) + WithTime(s[1..], t);
      assert WithTime([s[0]] + rest, t) == (if s[0].time == t then [s[0]] else []) + WithTime(rest, t);
    }
  }

  /** Stability: entries with equal times keep their relative order. */
  lemma {:induction false} SortByTimeDescStable(s: seq<Assignment>, t: int)
    ensures WithTime(SortByTimeDesc(s), t) == WithTime(s, t)
  {
    if |s| > 0 {
      SortByTimeDescStable(s[1..], t);
      InsertStable(s[0], SortByTimeDesc(s[1..]), t);
    }
  }

  /** The history list: post entries, then relabelled patrol entries, sorted
      latest first. */
  function History(assignments: seq<Assignment>, patrols: seq<PatrolAssignment>): (h: seq<Assignment>)
    ensures |h| == |assignments| + |patrols|
    ensures multiset(h) == multiset(assignments) + multiset(PatrolsAsPosts(patrols))
    ensures SortedByTimeDesc(h)
  {
    var merged := assignments + PatrolsAsPosts(patrols);
    SortByTimeDescSorted(merged);
    SortByTimeDescPermutation(merged);
    SortByTimeDesc(merged)
  }

  /** Entries with the same time appear in the history in the order of the
      merged ledgers: post entries before patrol entries, each in ledger order. */
  lemma HistoryStable(assignments: seq<Assignment>, patrols: seq<PatrolAssignment>, t: int)
    ensures WithTime(History(assignments, patrols), t) == WithTime(assignments + PatrolsAsPosts(patrols), t)
  {
    SortByTimeDescStable(assignments + PatrolsAsPosts(patrols), t);
  }

  // ---------------------------------------------------------------------
  // Interplay with the alert tick

  /** A freshly dropped post entry has no actual time, so it changes no tick's alerts. */
  lemma DroppedEntryRaisesNoAlert(data: GuardsData, guard: string, post: string, time: int, settings: ShiftSettings, now: int)
    ensures var entry := Assignment(None, guard, post, time, None);
      CurrentAlerts(data.(assignments := data.assignments + [entry]), settings, now) == CurrentAlerts(data, settings, now)
  {
    var entry := Assignment(None, guard, post, time, None);
    var before := PostTasks(data.assignments, settings);
    var after := PostTasks(data.assignments + [entry], settings);
    assert after == before + PostTasks([entry], settings);
    assert Scan(PostTasks([entry], settings), now) == [];
    ScanAppend(before, PostTasks([entry], settings), now);
    assert Scan(after, now) == Scan(before, now);
    if data.breaks.Some? && data.meals.Some? {
      var rest := BreakTasks(data.breaks.value, settings) + MealTasks(data.meals.value, settings);
      assert after + BreakTasks(data.breaks.value, settings) + MealTasks(data.meals.value, settings) == after + rest;
      assert before + BreakTasks(data.breaks.value, settings) + MealTasks(data.meals.value, settings) == before + rest;
      ScanAppend(after, rest, now);
      ScanAppend(before, rest, now);
      assert CurrentAlerts(data, settings, now) == Some(Scan(before + rest, now));
      assert CurrentAlerts(data.(assignments := data.assignments + [entry]), settings, now) == Some(Scan(after + rest, now));
    }
  }

  // ---------------------------------------------------------------------
  // The board

  /** The names offered for dragging, in roster order. */
  function RosterNames(guards: seq<Guard>): (names: seq<string>)
    ensures |names| == |guards|
    ensures forall i | 0 <= i < |guards| :: names[i] == guards[i].name
  {
    seq(|guards|, i requires 0 <= i < |guards| => guards[i].name)
  }

  /** A dragged guard is acted on only when it is a non-empty name (JavaScript
      treats both `null` and `""` as false). */
  predicate Dragging(draggedGuard: Option<string>) {
    draggedGuard.Some? && draggedGuard.value != ""
  }

  /** The screen's state: the names offered for dragging, both ledgers as
      shown, and the guard being dragged. */
  class ShiftManagement {
    var availableGuards: seq<string>
    var assignments: seq<Assignment>
    var patrols: seq<PatrolAssignment>
    var draggedGuard: Option<string>
    const store: LocalStore

    constructor (store: LocalStore)
      ensures this.store == store
      ensures availableGuards == [] && assignments == [] && patrols == [] && draggedGuard == None
    {
      this.store := store;
      availableGuards := [];
      assignments := [];
      patrols := [];
      draggedGuard := None;
    }

    /** `loadData`: the roster's names and both ledgers from the stored record. */
    method LoadData()
      modifies this
      ensures availableGuards == RosterNames(store.GetGuardsData().guards)
      ensures assignments == store.GetGuardsData().assignments
      ensures patrols == store.GetGuardsData().patrols
      ensures draggedGuard == old(draggedGuard)
    {
      var data := store.GetGuardsData();
      availableGuards := RosterNames(data.guards);
      assignments := data.assignments;
      patrols := data.patrols;
    }

    /** `handleDragStart`: remember the guard being dragged. */
    method HandleDragStart(guard: string)
      modifies this
      ensures draggedGuard == Some(guard)
      ensures availableGuards == old(availableGuards) && assignments == old(assignments) && patrols == old(patrols)
    {
      draggedGuard := Some(guard);
    }

    /** `handleDropPost`: without a dragged guard nothing happens; otherwise one
        entry `{guard, post, time: now}` is appended, the post ledger (and only
        it) is written to the stored record, and the drag ends. */
    method HandleDropPost(post: string, now: int) returns (placed: bool)
      modifies this, store
      ensures placed == Dragging(old(draggedGuard))
      ensures !placed ==> unchanged(this) && unchanged(store)
      ensures placed ==> assignments == old(assignments) + [Assignment(None, old(draggedGuard).value, post, now, None)]
      ensures placed ==> availableGuards == old(availableGuards) && patrols == old(patrols) && draggedGuard == None
      ensures placed ==> store.items == old(store.items)[STORAGE_KEY := old(store.GetGuardsData()).(assignments := assignments)]
      ensures placed ==> GuardsAtPost(assignments, post) == GuardsAtPost(old(assignments), post) + [old(draggedGuard).value]
    {
      if !Dragging(draggedGuard) {
        return false;
      }
      var guard := draggedGuard.value;
      var newAssignments := assignments + [Assignment(None, guard, post, now, None)];
      GuardsAtPostAppend(assignments, [Assignment(None, guard, post, now, None)], post);
      assignments := newAssignments;
      var data := store.GetGuardsData();
      data := data.(assignments := newAssignments);
      store.SaveGuardsData(data);
      draggedGuard := None;
      placed := true;
    }

    /** `handleDropPatrol`: as for posts, on the patrol ledger. */
    method HandleDropPatrol(patrol: string, now: int) returns (placed: bool)
      modifies this, store
      ensures placed == Dragging(old(draggedGuard))
      ensures !placed ==> unchanged(this) && unchanged(store)
      ensures placed ==> patrols == old(patrols) + [PatrolAssignment(None, old(draggedGuard).value, patrol, now, None)]
      ensures placed ==> availableGuards == old(availableGuards) && assignments == old(assignments) && draggedGuard == None
      ensures placed ==> store.items == old(store.items)[STORAGE_KEY := old(store.GetGuardsData()).(patrols := patrols)]
      ensures placed ==> GuardsOnPatrol(patrols, patrol) == GuardsOnPatrol(old(patrols), patrol) + [old(draggedGuard).value]
    {
      if !Dragging(draggedGuard) {
        return false;
      }
      var guard := draggedGuard.value;
      var newPatrols := patrols + [PatrolAssignment(None, guard, patrol, now, None)];
      GuardsOnPatrolAppend(patrols, [PatrolAssignment(None, guard, patrol, now, None)], patrol);
      patrols := newPatrols;
      var data := store.GetGuardsData();
      data := data.(patrols := newPatrols);
      store.SaveGuardsData(data);
      draggedGuard := None;
      placed := true;
    }
  }
}
