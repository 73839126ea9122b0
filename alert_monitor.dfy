/** The alert tick of src/hooks/useAlertMonitor.tsx. Once per tick, every timed
    post, break and meal is measured against its kind's threshold; each alert
    is announced unless its time-bucketed key was already shown; finally shown
    keys whose guard and label no longer alert are forgotten. */
module UseAlertMonitor {
  import opened GuardTypes
  import opened JsStrings
  import opened Storage

  const MS_PER_MINUTE: int := 60000

  /** Minutes after which an executing task raises an alert, per kind. */
  datatype ShiftSettings = ShiftSettings(alertThresholdMinutes: int, breakThresholdMinutes: int, mealThresholdMinutes: int)

  /** A guard, the label of what they are doing, and the whole minutes it has lasted. */
  datatype Alert = Alert(guard: string, post: string, duration: int)

  const BREAK_LABEL: string := "הפסקה"
  const MEAL_LABEL: string := "אוכל"

  function PostLabel(post: string): string {
    "עמדה: " + post
  }

  /** A post, break or meal as the tick sees it: who, the alert label, when it
      started executing (if it has), and the threshold of its kind. */
  datatype TimedTask = TimedTask(guard: string, caption: string, actualTime: Option<int>, thresholdMinutes: int)

  function PostTasks(assignments: seq<Assignment>, settings: ShiftSettings): seq<TimedTask> {
    seq(|assignments|, i requires 0 <= i < |assignments| =>
      TimedTask(assignments[i].guard, PostLabel(assignments[i].post), assignments[i].actualTime, settings.alertThresholdMinutes))
  }

  function BreakTasks(breaks: seq<BreakAssignment>, settings: ShiftSettings): seq<TimedTask> {
    seq(|breaks|, i requires 0 <= i < |breaks| =>
      TimedTask(breaks[i].guard, BREAK_LABEL, breaks[i].actualTime, settings.breakThresholdMinutes))
  }

  function MealTasks(meals: seq<MealAssignment>, settings: ShiftSettings): seq<TimedTask> {
    seq(|meals|, i requires 0 <= i < |meals| =>
      TimedTask(meals[i].guard, MEAL_LABEL, meals[i].actualTime, settings.mealThresholdMinutes))
  }

  /** The task has started executing and has lasted at least its threshold
      (`(now - actual) / 60000 >= threshold`, stated without division). */
  predicate Overdue(t: TimedTask, now: int) {
    t.actualTime.Some? && now - t.actualTime.value >= MS_PER_MINUTE * t.thresholdMinutes
  }

  /** The alert of an executing task: `Math.floor` of the elapsed minutes. */
  function AlertOf(t: TimedTask, now: int): Alert
    requires t.actualTime.Some?
  {
    Alert(t.guard, t.caption, (now - t.actualTime.value) / MS_PER_MINUTE)
  }

  /** The source-level statement of the three checks: a task with an actual
      time whose elapsed minutes reach its kind's threshold, and its alert. */
  predicate PostOverdue(a: Assignment, settings: ShiftSettings, now: int) {
    a.actualTime.Some? && now - a.actualTime.value >= 60000 * settings.alertThresholdMinutes
  }

  function PostAlert(a: Assignment, now: int): Alert
    requires a.actualTime.Some?
  {
    Alert(a.guard, "עמדה: " + a.post, (now - a.actualTime.value) / 60000)
  }

  predicate BreakOverdue(b: BreakAssignment, settings: ShiftSettings, now: int) {
    b.actualTime.Some? && now - b.actualTime.value >= 60000 * settings.breakThresholdMinutes
  }

  function BreakAlert(b: BreakAssignment, now: int): Alert
    requires b.actualTime.Some?
  {
    Alert(b.guard, "הפסקה", (now - b.actualTime.value) / 60000)
  }

  predicate MealOverdue(m: MealAssignment, settings: ShiftSettings, now: int) {
    m.actualTime.Some? && now - m.actualTime.value >= 60000 * settings.mealThresholdMinutes
  }

  function MealAlert(m: MealAssignment, now: int): Alert
    requires m.actualTime.Some?
  {
    Alert(m.guard, "אוכל", (now - m.actualTime.value) / 60000)
  }

  /** The alerts a sequence of tasks raises, in task order. */
  function Scan(ts: seq<TimedTask>, now: int): (alerts: seq<Alert>)
    ensures |alerts| <= |ts|
  {
    if |ts| == 0 then []
    else
      var last := ts[|ts| - 1];
      Scan(ts[..|ts| - 1], now) + (if Overdue(last, now) then [AlertOf(last, now)] else [])
  }

  /** The alerts of one tick: posts, then breaks, then meals. Patrols are not
      looked at. When the record has no breaks or no meals, the tick throws
      before announcing anything, which is `None` here. */
  function CurrentAlerts(data: GuardsData, settings: ShiftSettings, now: int): (alerts: Option<seq<Alert>>)
    ensures alerts.None? <==> data.breaks.None? || data.meals.None?
    ensures alerts.Some? ==> |alerts.value| <= |data.assignments| + |data.breaks.value| + |data.meals.value|
  {
    if data.breaks.None? || data.meals.None? then None
    else Some(Scan(PostTasks(data.assignments, settings) + BreakTasks(data.breaks.value, settings)
      + MealTasks(data.meals.value, settings), now))
  }

  /** The notify-once key: guard, label and the 5-minute bucket of the duration. */
  function AlertKey(a: Alert): string {
    a.guard + "-" + a.post + "-" + IntToString(a.duration / 5)
  }

  /** `new Set(alerts.map(key))`. */
  function KeysOf(alerts: seq<Alert>): set<string> {
    if |alerts| == 0 then {} else KeysOf(alerts[..|alerts| - 1]) + {AlertKey(alerts[|alerts| - 1])}
  }

  /** `key.split('-').slice(0, -1).join('-')`. */
  function BaseKey(key: string): string {
    var parts := Split(key, '-');
    Join(parts[..|parts| - 1], '-')
  }

  /** Some current key starts with the base of `key`. */
  predicate StillActive(key: string, currentKeys: set<string>) {
    exists c | c in currentKeys :: BaseKey(key) <= c
  }

  /** The shown-key set and the notifications fired, after a pass over alerts. */
  datatype Announced = Announced(shown: set<string>, toasts: seq<Alert>)

  /** The notification pass over the first `n` alerts: each alert whose key is
      not yet shown is announced and its key recorded. */
  function AnnounceUpTo(alerts: seq<Alert>, shown: set<string>, n: nat): Announced
    requires n <= |alerts|
  {
    if n == 0 then Announced(shown, [])
    else
      var r := AnnounceUpTo(alerts, shown, n - 1);
      var a := alerts[n - 1];
      if AlertKey(a) in r.shown then r
      else Announced(r.shown + {AlertKey(a)}, r.toasts + [a])
  }

  /** The notification pass over all the alerts, in order. */
  function Announce(alerts: seq<Alert>, shown: set<string>): Announced {
    AnnounceUpTo(alerts, shown, |alerts|)
  }

  /** The clean-up pass: keep exactly the shown keys that are still active. */
  function Cleanup(shown: set<string>, currentKeys: set<string>): (kept: set<string>)
    ensures kept <= shown
  {
    set k | k in shown && StillActive(k, currentKeys)
  }

  /** One whole tick over the current alerts. */
  function Tick(shown: set<string>, alerts: seq<Alert>): Announced {
    var r := Announce(alerts, shown);
    Announced(Cleanup(r.shown, KeysOf(alerts)), r.toasts)
  }

  // ---------------------------------------------------------------------
  // Alert derivation

  /** Each task is measured on its own: scanning a concatenation concatenates the scans. */
  lemma {:induction false} ScanAppend(ts1: seq<TimedTask>, ts2: seq<TimedTask>, now: int)
    ensures Scan(ts1 + ts2, now) == Scan(ts1, now) + Scan(ts2, now)
  {
    if |ts2| > 0 {
      var ts := ts1 + ts2;
      assert ts[..|ts| - 1] == ts1 + ts2[..|ts2| - 1];
      ScanAppend(ts1, ts2[..|ts2| - 1], now);
    } else {
      assert ts1 + ts2 == ts1;
    }
  }

  /** An overdue task raises its alert, and every alert comes from an overdue
      task; a task that never started executing raises none. */
  lemma {:induction false} ScanMembership(ts: seq<TimedTask>, now: int)
    ensures forall i | 0 <= i < |ts| && Overdue(ts[i], now) :: AlertOf(ts[i], now) in Scan(ts, now)
    ensures forall a | a in Scan(ts, now) :: exists i | 0 <= i < |ts| :: Overdue(ts[i], now) && a == AlertOf(ts[i], now)
    ensures |Scan(ts, now)| <= |ts|
  {
    if |ts| > 0 {
      var init := ts[..|ts| - 1];
      ScanMembership(init, now);
      forall a | a in Scan(ts, now)
        ensures exists i | 0 <= i < |ts| :: Overdue(ts[i], now) && a == AlertOf(ts[i], now)
      {
        if a in Scan(init, now) {
          var i :| 0 <= i < |init| && Overdue(init[i], now) && a == AlertOf(init[i], now);
          assert ts[i] == init[i];
        } else {
          assert Overdue(ts[|ts| - 1], now) && a == AlertOf(ts[|ts| - 1], now);
        }
      }
      forall i | 0 <= i < |ts| && Overdue(ts[i], now) ensures AlertOf(ts[i], now) in Scan(ts, now) {
        if i < |ts| - 1 {
          assert ts[i] == init[i];
        }
      }
    }
  }

  /** The alert list is the post alerts, then the break alerts, then the meal
      alerts, each measured against its own kind's threshold. */
  lemma CurrentAlertsOrder(data: GuardsData, settings: ShiftSettings, now: int)
    requires data.breaks.Some? && data.meals.Some?
    ensures CurrentAlerts(data, settings, now) == Some(
      Scan(PostTasks(data.assignments, settings), now)
      + Scan(BreakTasks(data.breaks.value, settings), now)
      + Scan(MealTasks(data.meals.value, settings), now))
  {
    var p := PostTasks(data.assignments, settings);
    var b := BreakTasks(data.breaks.value, settings);
    var m := MealTasks(data.meals.value, settings);
    ScanAppend(p + b, m, now);
    ScanAppend(p, b, now);
  }

  /** Per ledger: an overdue post raises its alert, and every alert of the post
      pass comes from an overdue post. */
  lemma PostScanIff(assignments: seq<Assignment>, settings: ShiftSettings, now: int)
    ensures var alerts := Scan(PostTasks(assignments, settings), now);
      && (forall j | 0 <= j < |assignments| && PostOverdue(assignments[j], settings, now) ::
            PostAlert(assignments[j], now) in alerts)
      && (forall x | x in alerts :: exists j | 0 <= j < |assignments| ::
            PostOverdue(assignments[j], settings, now) && x == PostAlert(assignments[j], now))
  {
    var ts := PostTasks(assignments, settings);
    ScanMembership(ts, now);
    forall j | 0 <= j < |assignments| && PostOverdue(assignments[j], settings, now)
      ensures PostAlert(assignments[j], now) in Scan(ts, now)
    {
      assert Overdue(ts[j], now) && AlertOf(ts[j], now) == PostAlert(assignments[j], now);
    }
    forall x | x in Scan(ts, now) ensures exists j | 0 <= j < |assignments| ::
      PostOverdue(assignments[j], settings, now) && x == PostAlert(assignments[j], now)
    {
      var k :| 0 <= k < |ts| && Overdue(ts[k], now) && x == AlertOf(ts[k], now);
      assert PostOverdue(assignments[k], settings, now);
    }
  }

  lemma BreakScanIff(breaks: seq<BreakAssignment>, settings: ShiftSettings, now: int)
    ensures var alerts := Scan(BreakTasks(breaks, settings), now);
      && (forall j | 0 <= j < |breaks| && BreakOverdue(breaks[j], settings, now) ::
            BreakAlert(breaks[j], now) in alerts)
      && (forall x | x in alerts :: exists j | 0 <= j < |breaks| ::
            BreakOverdue(breaks[j], settings, now) && x == BreakAlert(breaks[j], now))
  {
    var ts := BreakTasks(breaks, settings);
    ScanMembership(ts, now);
    forall j | 0 <= j < |breaks| && BreakOverdue(breaks[j], settings, now)
      ensures BreakAlert(breaks[j], now) in Scan(ts, now)
    {
      assert Overdue(ts[j], now) && AlertOf(ts[j], now) == BreakAlert(breaks[j], now);
    }
    forall x | x in Scan(ts, now) ensures exists j | 0 <= j < |breaks| ::
      BreakOverdue(breaks[j], settings, now) && x == BreakAlert(breaks[j], now)
    {
      var k :| 0 <= k < |ts| && Overdue(ts[k], now) && x == AlertOf(ts[k], now);
      assert BreakOverdue(breaks[k], settings, now);
    }
  }

  lemma MealScanIff(meals: seq<MealAssignment>, settings: ShiftSettings, now: int)
    ensures var alerts := Scan(MealTasks(meals, settings), now);
      && (forall j | 0 <= j < |meals| && MealOverdue(meals[j], settings, now) ::
            MealAlert(meals[j], now) in alerts)
      && (forall x | x in alerts :: exists j | 0 <= j < |meals| ::
            MealOverdue(meals[j], settings, now) && x == MealAlert(meals[j], now))
  {
    var ts := MealTasks(meals, settings);
    ScanMembership(ts, now);
    forall j | 0 <= j < |meals| && MealOverdue(meals[j], settings, now)
      ensures MealAlert(meals[j], now) in Scan(ts, now)
    {
      assert Overdue(ts[j], now) && AlertOf(ts[j], now) == MealAlert(meals[j], now);
    }
    forall x | x in Scan(ts, now) ensures exists j | 0 <= j < |meals| ::
      MealOverdue(meals[j], settings, now) && x == MealAlert(meals[j], now)
    {
      var k :| 0 <= k < |ts| && Overdue(ts[k], now) && x == AlertOf(ts[k], now);
      assert MealOverdue(meals[k], settings, now);
    }
  }

  /** Over the whole tick: each kind is measured against its own threshold, an
      overdue post, break or meal raises its alert, and every alert is one of
      these. */
  lemma CurrentAlertsIff(data: GuardsData, settings: ShiftSettings, now: int)
    requires data.breaks.Some? && data.meals.Some?
    ensures var alerts := CurrentAlerts(data, settings, now).value;
      && (forall j | 0 <= j < |data.assignments| && PostOverdue(data.assignments[j], settings, now) ::
            PostAlert(data.assignments[j], now) in alerts)
      && (forall j | 0 <= j < |data.breaks.value| && BreakOverdue(data.breaks.value[j], settings, now) ::
            BreakAlert(data.breaks.value[j], now) in alerts)
      && (forall j | 0 <= j < |data.meals.value| && MealOverdue(data.meals.value[j], settings, now) ::
            MealAlert(data.meals.value[j], now) in alerts)
      && (forall x | x in alerts ::
            || (exists j | 0 <= j < |data.assignments| ::
                  PostOverdue(data.assignments[j], settings, now) && x == PostAlert(data.assignments[j], now))
            || (exists j | 0 <= j < |data.breaks.value| ::
                  BreakOverdue(data.breaks.value[j], settings, now) && x == BreakAlert(data.breaks.value[j], now))
            || (exists j | 0 <= j < |data.meals.value| ::
                  MealOverdue(data.meals.value[j], settings, now) && x == MealAlert(data.meals.value[j], now)))
  {
    CurrentAlertsOrder(data, settings, now);
    PostScanIff(data.assignments, settings, now);
    BreakScanIff(data.breaks.value, settings, now);
    MealScanIff(data.meals.value, settings, now);
  }

  /** Patrols never raise alerts. */
  lemma PatrolsIgnored(data: GuardsData, patrols: seq<PatrolAssignment>, settings: ShiftSettings, now: int)
    ensures CurrentAlerts(data.(patrols := patrols), settings, now) == CurrentAlerts(data, settings, now)
  {
  }

  /** The tick throws exactly when the record lacks breaks or meals, such as the
      record returned when nothing is stored. */
  lemma DefaultRecordThrows(settings: ShiftSettings, now: int)
    ensures CurrentAlerts(DEFAULT_GUARDS_DATA, settings, now).None?
  {
  }

  /** With thresholds 60/15/32, a break begun 16 minutes ago alerts once with
      duration 16; one begun 10 minutes ago does not alert. */
  lemma BreakThresholdExample(start: int)
    ensures var settings := ShiftSettings(60, 15, 32);
      var data := GuardsData([], [], [], Some([]), Some([BreakAssignment("b1", "דני", start, Some(start))]));
      && CurrentAlerts(data, settings, start + 16 * 60000) == Some([Alert("דני", "הפסקה", 16)])
      && CurrentAlerts(data, settings, start + 10 * 60000) == Some([])
  {
    var settings := ShiftSettings(60, 15, 32);
    var data := GuardsData([], [], [], Some([]), Some([BreakAssignment("b1", "דני", start, Some(start))]));
    var ts := PostTasks(data.assignments, settings) + BreakTasks(data.breaks.value, settings) + MealTasks(data.meals.value, settings);
    assert ts == [TimedTask("דני", "הפסקה", Some(start), 15)];
    assert ts[..0] == [];
    assert Scan(ts, start + 16 * 60000) == [Alert("דני", "הפסקה", 16)];
    assert Scan(ts, start + 10 * 60000) == [];
  }

  // ---------------------------------------------------------------------
  // Keys

  /** Joining all parts but the last gives a prefix of joining them all. */
  lemma {:induction false} JoinInitIsPrefix(parts: seq<string>, sep: char)
    requires |parts| >= 1
    ensures Join(parts[..|parts| - 1], sep) <= Join(parts, sep)
  {
    if |parts| >= 2 {
      var init := parts[..|parts| - 1];
      var whole := Join(parts, sep);
      assert whole == parts[0] + [sep] + Join(parts[1..], sep);
      if |parts| == 2 {
        assert init == [parts[0]];
        assert whole[..|parts[0]|] == parts[0];
      } else {
        JoinInitIsPrefix(parts[1..], sep);
        assert init[1..] == parts[1..][..|parts| - 2];
        var a := Join(init[1..], sep);
        var b := Join(parts[1..], sep);
        assert Join(init, sep) == parts[0] + [sep] + a;
        assert a == b[..|a|];
        assert (parts[0] + [sep] + b)[..|parts[0]| + 1 + |a|] == parts[0] + [sep] + a;
      }
    }
  }

  /** The base of a key is always a prefix of the key. */
  lemma BaseKeyIsPrefix(key: string)
    ensures BaseKey(key) <= key
  {
    JoinInitIsPrefix(Split(key, '-'), '-');
    JoinSplit(key, '-');
  }

  /** The base of an alert's key is its guard and label; for a negative bucket
      the minus sign of the bucket leaves a trailing `-` on the base. */
  lemma BaseKeyOfAlert(a: Alert)
    ensures BaseKey(AlertKey(a)) == if a.duration >= 0 then a.guard + "-" + a.post else a.guard + "-" + a.post + "-"
  {
    var b := a.duration / 5;
    var p := if b >= 0 then a.guard + "-" + a.post else a.guard + "-" + a.post + "-";
    var q := if b >= 0 then IntToString(b) else NatToString(-b);
    NatToStringIsDigits(if b >= 0 then b else -b);
    assert AlertKey(a) == p + ['-'] + q;
    SplitAround(p, q, '-');
    SplitFree(q, '-');
    var parts := Split(AlertKey(a), '-');
    assert parts[..|parts| - 1] == Split(p, '-');
    JoinSplit(p, '-');
  }

  /** Alerts for the same guard and label share a key exactly when their
      durations fall in the same 5-minute bucket. */
  lemma KeyIffSameBucket(a1: Alert, a2: Alert)
    requires a1.guard == a2.guard && a1.post == a2.post
    ensures AlertKey(a1) == AlertKey(a2) <==> a1.duration / 5 == a2.duration / 5
  {
    var prefix := a1.guard + "-" + a1.post + "-";
    if AlertKey(a1) == AlertKey(a2) {
      assert AlertKey(a1)[|prefix|..] == IntToString(a1.duration / 5);
      assert AlertKey(a2)[|prefix|..] == IntToString(a2.duration / 5);
      IntToStringInjective(a1.duration / 5, a2.duration / 5);
    }
  }

  // ---------------------------------------------------------------------
  // Notification and clean-up

  lemma KeysOfSnoc(alerts: seq<Alert>, a: Alert)
    ensures KeysOf(alerts + [a]) == KeysOf(alerts) + {AlertKey(a)}
  {
    assert (alerts + [a])[..|alerts|] == alerts;
  }

  /** Every alert's key is in the key set. */
  lemma {:induction false} KeysOfContains(alerts: seq<Alert>)
    ensures forall a | a in alerts :: AlertKey(a) in KeysOf(alerts)
  {
    if |alerts| > 0 {
      var init := alerts[..|alerts| - 1];
      KeysOfContains(init);
      assert alerts == init + [alerts[|alerts| - 1]];
    }
  }

  /** Every key in the key set is the key of one of the alerts. */
  lemma {:induction false} KeysOfWitness(alerts: seq<Alert>, k: string)
    requires k in KeysOf(alerts)
    ensures exists a | a in alerts :: AlertKey(a) == k
  {
    var init := alerts[..|alerts| - 1];
    var last := alerts[|alerts| - 1];
    assert alerts == init + [last];
    if k in KeysOf(init) {
      KeysOfWitness(init, k);
      var a :| a in init && AlertKey(a) == k;
      assert a in alerts;
    } else {
      assert AlertKey(last) == k;
    }
  }

  /** The key set of the first `n` alerts grows by the key of alert `n - 1`. */
  lemma KeysOfPrefixStep(alerts: seq<Alert>, n: nat)
    requires 0 < n <= |alerts|
    ensures KeysOf(alerts[..n]) == KeysOf(alerts[..n - 1]) + {AlertKey(alerts[n - 1])}
  {
    assert alerts[..n][..n - 1] == alerts[..n - 1];
  }

  /** After the pass over the first `n` alerts their keys are shown, and
      nothing else was added. */
  lemma {:induction false} AnnounceShownUpTo(alerts: seq<Alert>, shown: set<string>, n: nat)
    requires n <= |alerts|
    ensures AnnounceUpTo(alerts, shown, n).shown == shown + KeysOf(alerts[..n])
  {
    if n > 0 {
      AnnounceShownUpTo(alerts, shown, n - 1);
      KeysOfPrefixStep(alerts, n);
    }
  }

  /** After the notification pass every current key is shown and nothing else
      was added. */
  lemma AnnounceShown(alerts: seq<Alert>, shown: set<string>)
    ensures Announce(alerts, shown).shown == shown + KeysOf(alerts)
  {
    AnnounceShownUpTo(alerts, shown, |alerts|);
    assert alerts[..|alerts|] == alerts;
  }

  /** The set algebra of one step of the pass: when the notified keys are the
      earlier keys not shown, they stay so after one more key. */
  lemma NotifiedKeysStep<K>(shown: set<K>, before: set<K>, notified: set<K>, k: K)
    requires notified == before - shown
    ensures k in shown + before ==> notified == (before + {k}) - shown
    ensures k !in shown + before ==> notified + {k} == (before + {k}) - shown
  {
  }

  /** One step of `AnnounceKeysUpTo`: alert `n - 1` keeps the notified keys
      equal to the keys not shown before. */
  lemma AnnounceKeysStep(alerts: seq<Alert>, shown: set<string>, n: nat)
    requires 0 < n <= |alerts|
    requires KeysOf(AnnounceUpTo(alerts, shown, n - 1).toasts) == KeysOf(alerts[..n - 1]) - shown
    ensures KeysOf(AnnounceUpTo(alerts, shown, n).toasts) == KeysOf(alerts[..n]) - shown
  {
    AnnounceShownUpTo(alerts, shown, n - 1);
    KeysOfPrefixStep(alerts, n);
    var r := AnnounceUpTo(alerts, shown, n - 1);
    var a := alerts[n - 1];
    NotifiedKeysStep(shown, KeysOf(alerts[..n - 1]), KeysOf(r.toasts), AlertKey(a));
    if AlertKey(a) !in r.shown {
      KeysOfSnoc(r.toasts, a);
    }
  }

  /** The pass over the first `n` alerts notifies exactly their keys that were
      not shown before. */
  lemma {:induction false} AnnounceKeysUpTo(alerts: seq<Alert>, shown: set<string>, n: nat)
    requires n <= |alerts|
    ensures KeysOf(AnnounceUpTo(alerts, shown, n).toasts) == KeysOf(alerts[..n]) - shown
  {
    if n > 0 {
      AnnounceKeysUpTo(alerts, shown, n - 1);
      AnnounceKeysStep(alerts, shown, n);
    } else {
      assert alerts[..0] == [];
    }
  }

  /** A notification fires for exactly the keys not shown before. */
  lemma AnnounceKeys(alerts: seq<Alert>, shown: set<string>)
    ensures KeysOf(Announce(alerts, shown).toasts) == KeysOf(alerts) - shown
  {
    AnnounceKeysUpTo(alerts, shown, |alerts|);
    assert alerts[..|alerts|] == alerts;
  }

  /** Every notification of the pass over the first `n` alerts is one of them,
      and no two share a key. */
  lemma {:induction false} AnnounceToastsUpTo(alerts: seq<Alert>, shown: set<string>, n: nat)
    requires n <= |alerts|
    ensures forall t | t in AnnounceUpTo(alerts, shown, n).toasts :: t in alerts
    ensures var ts := AnnounceUpTo(alerts, shown, n).toasts;
      forall i, j | 0 <= i < j < |ts| :: AlertKey(ts[i]) != AlertKey(ts[j])
  {
    if n > 0 {
      AnnounceToastsUpTo(alerts, shown, n - 1);
      AnnounceShownUpTo(alerts, shown, n - 1);
      AnnounceKeysUpTo(alerts, shown, n - 1);
      var r := AnnounceUpTo(alerts, shown, n - 1);
      var a := alerts[n - 1];
      if AlertKey(a) !in r.shown {
        var ts := r.toasts + [a];
        forall i, j | 0 <= i < j < |ts| ensures AlertKey(ts[i]) != AlertKey(ts[j]) {
          if j == |ts| - 1 {
            assert ts[i] in r.toasts;
            KeysOfContains(r.toasts);
            assert AlertKey(ts[i]) in KeysOf(r.toasts);
          } else {
            assert ts[i] == r.toasts[i] && ts[j] == r.toasts[j];
          }
        }
      }
    }
  }

  /** Every notification is one of the alerts, and no two notifications of a
      pass share a key. */
  lemma AnnounceToasts(alerts: seq<Alert>, shown: set<string>)
    ensures forall t | t in Announce(alerts, shown).toasts :: t in alerts
    ensures var ts := Announce(alerts, shown).toasts;
      forall i, j | 0 <= i < j < |ts| :: AlertKey(ts[i]) != AlertKey(ts[j])
  {
    AnnounceToastsUpTo(alerts, shown, |alerts|);
    assert Announce(alerts, shown) == AnnounceUpTo(alerts, shown, |alerts|);
  }

  /** The whole notification pass: the shown set, the notified keys, and the
      notifications themselves. */
  lemma AnnounceSpec(alerts: seq<Alert>, shown: set<string>)
    ensures Announce(alerts, shown).shown == shown + KeysOf(alerts)
    ensures KeysOf(Announce(alerts, shown).toasts) == KeysOf(alerts) - shown
    ensures forall t | t in Announce(alerts, shown).toasts :: t in alerts
    ensures var ts := Announce(alerts, shown).toasts;
      forall i, j | 0 <= i < j < |ts| :: AlertKey(ts[i]) != AlertKey(ts[j])
  {
    AnnounceShown(alerts, shown);
    AnnounceKeys(alerts, shown);
    AnnounceToasts(alerts, shown);
  }

  /** Alert `i` is announced by the pass: its key is not shown yet and no
      earlier alert of the pass has the same key. */
  predicate FirstUnshown(alerts: seq<Alert>, shown: set<string>, i: nat)
    requires i < |alerts|
  {
    AlertKey(alerts[i]) !in shown
      && forall j | 0 <= j < i :: AlertKey(alerts[j]) != AlertKey(alerts[i])
  }

  /** The alerts among the first `n` that `FirstUnshown` selects, in index
      order; a reference for the notifications independent of `Announce`. */
  function FirstUnshownUpTo(alerts: seq<Alert>, shown: set<string>, n: nat): (ts: seq<Alert>)
    requires n <= |alerts|
    ensures |ts| <= n
    ensures forall t | t in ts :: t in alerts[..n]
  {
    if n == 0 then []
    else
      FirstUnshownUpTo(alerts, shown, n - 1)
        + (if FirstUnshown(alerts, shown, n - 1) then [alerts[n - 1]] else [])
  }

  /** The last of the first `n` alerts is already shown after the pass over
      the ones before it exactly when `FirstUnshown` rejects it. */
  lemma AnnounceSeesEarlierKeys(alerts: seq<Alert>, shown: set<string>, n: nat)
    requires 0 < n <= |alerts|
    ensures AlertKey(alerts[n - 1]) in AnnounceUpTo(alerts, shown, n - 1).shown
      <==> !FirstUnshown(alerts, shown, n - 1)
  {
    var init := alerts[..n - 1];
    var k := AlertKey(alerts[n - 1]);
    AnnounceShownUpTo(alerts, shown, n - 1);
    if k in KeysOf(init) {
      KeysOfWitness(init, k);
      var a :| a in init && AlertKey(a) == k;
      var j :| 0 <= j < |init| && init[j] == a;
      assert AlertKey(alerts[j]) == k;
    }
    if exists j | 0 <= j < n - 1 :: AlertKey(alerts[j]) == k {
      var j :| 0 <= j < n - 1 && AlertKey(alerts[j]) == k;
      assert init[j] == alerts[j];
      KeysOfContains(init);
    }
  }

  /** The pass over the first `n` alerts announces exactly `FirstUnshownUpTo`. */
  lemma {:induction false} AnnouncePrefixToasts(alerts: seq<Alert>, shown: set<string>, n: nat)
    requires n <= |alerts|
    ensures AnnounceUpTo(alerts, shown, n).toasts == FirstUnshownUpTo(alerts, shown, n)
  {
    if n > 0 {
      AnnouncePrefixToasts(alerts, shown, n - 1);
      AnnounceSeesEarlierKeys(alerts, shown, n);
    }
  }

  /** The notifications of a pass are, in alert order, exactly the alerts whose
      key is not shown and not taken by an earlier alert: of several alerts
      sharing a key the first is announced, with its own duration. */
  lemma AnnounceToastsInOrder(alerts: seq<Alert>, shown: set<string>)
    ensures Announce(alerts, shown).toasts == FirstUnshownUpTo(alerts, shown, |alerts|)
  {
    AnnouncePrefixToasts(alerts, shown, |alerts|);
  }

  /** A tick never forgets a key it has just generated, and keeps any other
      shown key exactly when a current key starts with its base. */
  lemma TickSpec(shown: set<string>, alerts: seq<Alert>)
    ensures KeysOf(alerts) <= Tick(shown, alerts).shown
    ensures forall k :: k in Tick(shown, alerts).shown <==>
      (k in shown || k in KeysOf(alerts)) && StillActive(k, KeysOf(alerts))
  {
    AnnounceSpec(alerts, shown);
    forall k | k in KeysOf(alerts) ensures StillActive(k, KeysOf(alerts)) {
      BaseKeyIsPrefix(k);
    }
  }

  /** Across two ticks, an alert whose key was generated in the first tick is
      not announced again in the second: the same guard and label in the same
      5-minute bucket notify only once. */
  lemma SameBucketNotifiesOnce(shown: set<string>, alerts1: seq<Alert>, alerts2: seq<Alert>, a1: Alert, a2: Alert)
    requires a1 in alerts1 && a2 in alerts2
    requires a1.guard == a2.guard && a1.post == a2.post && a1.duration / 5 == a2.duration / 5
    ensures forall t | t in Tick(Tick(shown, alerts1).shown, alerts2).toasts :: AlertKey(t) != AlertKey(a2)
  {
    var s1 := Tick(shown, alerts1).shown;
    TickSpec(shown, alerts1);
    KeysOfContains(alerts1);
    assert AlertKey(a1) in KeysOf(alerts1);
    AnnounceSpec(alerts2, s1);
    KeysOfContains(Announce(alerts2, s1).toasts);
    forall t | t in Tick(s1, alerts2).toasts ensures AlertKey(t) != AlertKey(a2) {
      assert AlertKey(t) in KeysOf(Announce(alerts2, s1).toasts);
    }
  }

  /** An alert whose key is not shown is announced exactly once in the tick. */
  lemma NewKeyNotifiesOnce(shown: set<string>, alerts: seq<Alert>, a: Alert)
    requires a in alerts && AlertKey(a) !in shown
    ensures var ts := Tick(shown, alerts).toasts;
      exists i | 0 <= i < |ts| :: AlertKey(ts[i]) == AlertKey(a)
        && forall j | 0 <= j < |ts| && AlertKey(ts[j]) == AlertKey(a) :: j == i
  {
    AnnounceSpec(alerts, shown);
    var ts := Tick(shown, alerts).toasts;
    KeysOfContains(alerts);
    assert AlertKey(a) in KeysOf(ts);
    KeysOfWitness(ts, AlertKey(a));
    var t :| t in ts && AlertKey(t) == AlertKey(a);
    var i :| 0 <= i < |ts| && ts[i] == t;
    assert forall j | 0 <= j < |ts| && AlertKey(ts[j]) == AlertKey(a) :: j == i;
  }

  /** A key that is neither shown before the first tick nor generated by it is
      still not shown after it, so the second tick announces it exactly once,
      whatever else either tick alerts. */
  lemma NewBucketNotifiesAgain(shown: set<string>, alerts1: seq<Alert>, alerts2: seq<Alert>, a: Alert)
    requires AlertKey(a) !in shown
    requires forall x | x in alerts1 :: AlertKey(x) != AlertKey(a)
    requires a in alerts2
    ensures AlertKey(a) !in Tick(shown, alerts1).shown
    ensures var ts := Tick(Tick(shown, alerts1).shown, alerts2).toasts;
      exists i | 0 <= i < |ts| :: AlertKey(ts[i]) == AlertKey(a)
        && forall j | 0 <= j < |ts| && AlertKey(ts[j]) == AlertKey(a) :: j == i
  {
    TickSpec(shown, alerts1);
    AnnounceShown(alerts1, shown);
    if AlertKey(a) in KeysOf(alerts1) {
      KeysOfWitness(alerts1, AlertKey(a));
    }
    NewKeyNotifiesOnce(Tick(shown, alerts1).shown, alerts2, a);
  }

  /** Entering a new 5-minute bucket announces once more: if the first tick
      raised the guard and label only in other buckets, and the new bucket's
      key was not shown, the second tick announces the new bucket exactly once. */
  lemma NewBucketOfSameTaskNotifiesAgain(shown: set<string>, alerts1: seq<Alert>, alerts2: seq<Alert>, a: Alert)
    requires AlertKey(a) !in shown
    requires forall x | x in alerts1 :: x.guard == a.guard && x.post == a.post && x.duration / 5 != a.duration / 5
    requires a in alerts2
    ensures var ts := Tick(Tick(shown, alerts1).shown, alerts2).toasts;
      exists i | 0 <= i < |ts| :: AlertKey(ts[i]) == AlertKey(a)
        && forall j | 0 <= j < |ts| && AlertKey(ts[j]) == AlertKey(a) :: j == i
  {
    forall x | x in alerts1 ensures AlertKey(x) != AlertKey(a) {
      KeyIffSameBucket(x, a);
    }
    NewBucketNotifiesAgain(shown, alerts1, alerts2, a);
  }

  /** The base of a non-negative bucket's key is a prefix of every key of the
      same guard and label, whatever its bucket. */
  lemma BaseKeyCoversTask(a1: Alert, a2: Alert)
    requires a1.duration >= 0 && a2.guard == a1.guard && a2.post == a1.post
    ensures BaseKey(AlertKey(a1)) <= AlertKey(a2)
  {
    BaseKeyOfAlert(a1);
    var base := a1.guard + "-" + a1.post;
    var rest := "-" + IntToString(a2.duration / 5);
    assert AlertKey(a2) == base + rest;
    assert (base + rest)[..|base|] == base;
  }

  /** A shown key of a non-negative bucket is kept as long as its guard and
      label alert in any bucket; so coming back to that bucket is not announced. */
  lemma ShownBucketKeptWhileTaskAlerts(shown: set<string>, alerts2: seq<Alert>, alerts3: seq<Alert>, a1: Alert, a2: Alert)
    requires AlertKey(a1) in shown && a1.duration >= 0
    requires a2 in alerts2 && a2.guard == a1.guard && a2.post == a1.post
    ensures AlertKey(a1) in Tick(shown, alerts2).shown
    ensures forall t | t in Tick(Tick(shown, alerts2).shown, alerts3).toasts :: AlertKey(t) != AlertKey(a1)
  {
    TickSpec(shown, alerts2);
    BaseKeyCoversTask(a1, a2);
    KeysOfContains(alerts2);
    assert AlertKey(a2) in KeysOf(alerts2);
    assert StillActive(AlertKey(a1), KeysOf(alerts2));
    var s2 := Tick(shown, alerts2).shown;
    AnnounceKeys(alerts3, s2);
    KeysOfContains(Announce(alerts3, s2).toasts);
  }

  /** A shown key none of whose current keys starts with its base is deleted,
      so the same condition notifies afresh when it comes back. */
  lemma ForgottenKeyNotifiesAgain(shown: set<string>, alerts2: seq<Alert>, alerts3: seq<Alert>, a: Alert)
    requires AlertKey(a) in shown
    requires forall x | x in alerts2 :: !(BaseKey(AlertKey(a)) <= AlertKey(x))
    requires a in alerts3
    ensures AlertKey(a) !in Tick(shown, alerts2).shown
    ensures exists t | t in Tick(Tick(shown, alerts2).shown, alerts3).toasts :: AlertKey(t) == AlertKey(a)
  {
    TickSpec(shown, alerts2);
    forall c | c in KeysOf(alerts2) ensures !(BaseKey(AlertKey(a)) <= c) {
      KeysOfWitness(alerts2, c);
    }
    NewKeyNotifiesOnce(Tick(shown, alerts2).shown, alerts3, a);
  }

  // ---------------------------------------------------------------------
  // The hook

  /** The post pass (`data.assignments.forEach`): push the alert of every
      overdue post entry onto `current`, in ledger order. */
  method PushPostAlerts(current: seq<Alert>, assignments: seq<Assignment>, settings: ShiftSettings, now: int)
    returns (next: seq<Alert>)
    ensures next == current + Scan(PostTasks(assignments, settings), now)
  {
    next := current;
    ghost var posts := PostTasks(assignments, settings);
    var i := 0;
    while i < |assignments|
      invariant 0 <= i <= |assignments|
      invariant next == current + Scan(posts[..i], now)
    {
      var assignment := assignments[i];
      if assignment.actualTime.Some? {
        var elapsed := now - assignment.actualTime.value;
        if elapsed >= MS_PER_MINUTE * settings.alertThresholdMinutes {
          next := next + [Alert(assignment.guard, PostLabel(assignment.post), elapsed / MS_PER_MINUTE)];
        }
      }
      assert posts[..i + 1][..i] == posts[..i];
      i := i + 1;
    }
    assert posts[..i] == posts;
  }

  /** The break pass (`data.breaks.forEach`). */
  method PushBreakAlerts(current: seq<Alert>, breaks: seq<BreakAssignment>, settings: ShiftSettings, now: int)
    returns (next: seq<Alert>)
    ensures next == current + Scan(BreakTasks(breaks, settings), now)
  {
    next := current;
    ghost var tasks := BreakTasks(breaks, settings);
    var i := 0;
    while i < |breaks|
      invariant 0 <= i <= |breaks|
      invariant next == current + Scan(tasks[..i], now)
    {
      var breakAssignment := breaks[i];
      if breakAssignment.actualTime.Some? {
        var elapsed := now - breakAssignment.actualTime.value;
        if elapsed >= MS_PER_MINUTE * settings.breakThresholdMinutes {
          next := next + [Alert(breakAssignment.guard, BREAK_LABEL, elapsed / MS_PER_MINUTE)];
        }
      }
      assert tasks[..i + 1][..i] == tasks[..i];
      i := i + 1;
    }
    assert tasks[..i] == tasks;
  }

  /** The meal pass (`data.meals.forEach`). */
  method PushMealAlerts(current: seq<Alert>, meals: seq<MealAssignment>, settings: ShiftSettings, now: int)
    returns (next: seq<Alert>)
    ensures next == current + Scan(MealTasks(meals, settings), now)
  {
    next := current;
    ghost var tasks := MealTasks(meals, settings);
    var i := 0;
    while i < |meals|
      invariant 0 <= i <= |meals|
      invariant next == current + Scan(tasks[..i], now)
    {
      var meal := meals[i];
      if meal.actualTime.Some? {
        var elapsed := now - meal.actualTime.value;
        if elapsed >= MS_PER_MINUTE * settings.mealThresholdMinutes {
          next := next + [Alert(meal.guard, MEAL_LABEL, elapsed / MS_PER_MINUTE)];
        }
      }
      assert tasks[..i + 1][..i] == tasks[..i];
      i := i + 1;
    }
    assert tasks[..i] == tasks;
  }

  /** The alert list of a tick, built by the three ledger passes; a missing
      break or meal collection throws after the posts were scanned. */
  method CollectAlerts(data: GuardsData, settings: ShiftSettings, now: int) returns (alerts: Option<seq<Alert>>)
    ensures alerts == CurrentAlerts(data, settings, now)
  {
    var current := PushPostAlerts([], data.assignments, settings, now);
    assert current == Scan(PostTasks(data.assignments, settings), now);
    if data.breaks.None? {
      return None;
    }
    current := PushBreakAlerts(current, data.breaks.value, settings, now);
    if data.meals.None? {
      return None;
    }
    current := PushMealAlerts(current, data.meals.value, settings, now);
    CurrentAlertsOrder(data, settings, now);
    alerts := Some(current);
  }

  /** The hook's persistent state: the set behind `shownAlertsRef` and the
      notifications fired so far. */
  class AlertMonitor {
    var shown: set<string>
    var notifications: seq<Alert>
    const store: LocalStore

    constructor (store: LocalStore)
      ensures this.store == store && shown == {} && notifications == []
    {
      this.store := store;
      shown := {};
      notifications := [];
    }

    /** `checkAlerts`, run at time `now`. It reads the stored record; `completed`
        is false when the record lacks breaks or meals, and then nothing changes. */
    method CheckAlerts(settings: ShiftSettings, now: int) returns (completed: bool)
      modifies this
      ensures var current := CurrentAlerts(store.GetGuardsData(), settings, now);
        && completed == current.Some?
        && (completed ==>
              && shown == Tick(old(shown), current.value).shown
              && notifications == old(notifications) + Tick(old(shown), current.value).toasts)
        && (!completed ==> shown == old(shown) && notifications == old(notifications))
    {
      var data := store.GetGuardsData();
      var collected := CollectAlerts(data, settings, now);
      if collected.None? {
        return false;
      }
      var currentAlerts := collected.value;
      AnnounceNew(currentAlerts);
      var currentAlertKeys := KeysOf(currentAlerts);
      ForgetInactive(currentAlertKeys);
      completed := true;
    }

    /** The notification pass: announce each alert whose key has not been shown. */
    method AnnounceNew(currentAlerts: seq<Alert>)
      modifies this`shown, this`notifications
      ensures shown == Announce(currentAlerts, old(shown)).shown
      ensures notifications == old(notifications) + Announce(currentAlerts, old(shown)).toasts
    {
      ghost var shown0, notifications0 := shown, notifications;
      var i := 0;
      while i < |currentAlerts|
        invariant 0 <= i <= |currentAlerts|
        invariant shown == AnnounceUpTo(currentAlerts, shown0, i).shown
        invariant notifications == notifications0 + AnnounceUpTo(currentAlerts, shown0, i).toasts
      {
        var alert := currentAlerts[i];
        var alertKey := AlertKey(alert);
        if alertKey !in shown {
          shown := shown + {alertKey};
          notifications := notifications + [alert];
        }
        i := i + 1;
      }
    }

    /** The clean-up pass: delete, while iterating the set, each shown key whose
        base no current key starts with. */
    method ForgetInactive(currentAlertKeys: set<string>)
      modifies this`shown
      ensures shown == Cleanup(old(shown), currentAlertKeys)
    {
      var pending := shown;
      while pending != {}
        invariant pending <= old(shown)
        invariant shown == pending + Cleanup(old(shown) - pending, currentAlertKeys)
        decreases pending
      {
        var key :| key in pending;
        var isStillActive := exists c | c in currentAlertKeys :: BaseKey(key) <= c;
        if !isStillActive {
          shown := shown - {key};
        }
        pending := pending - {key};
      }
    }
  }
}
