# Guard shift board — a verified model

This project models the core of a small client-side app that security
supervisors use during a shift. The supervisor does three things with it:

- enters the guards on duty: a name, a "certified" flag, a shift type and a display colour;
- drags guards onto fixed posts and patrol rounds;
- gets alerted, through a timer tick, when a guard has spent too long at a
  post, on a break or at a meal.

Everything is kept in one record stored under the key `guardsData`.

The modules follow the program's files:

| module | file | what it models |
|---|---|---|
| `GuardTypes` | `guards.dfy` | `src/types/guards.ts`: the roster and ledger records, and the `POSTS` and `PATROLS` lists |
| `Storage` | `storage.dfy` | `src/utils/storage.ts`: the stored record under `guardsData` as a map-backed store, with its absent-key default |
| `JsStrings` | `js_strings.dfy` | the JavaScript string built-ins the core relies on: `trim`, `includes`, `split`/`join` on `-`, and integer rendering in template literals |
| `UseAlertMonitor` | `alert_monitor.dfy` | `checkAlerts` in `src/hooks/useAlertMonitor.tsx`. It is a specification (`CurrentAlerts`, `Announce`, `Cleanup`, `Tick`) plus the `AlertMonitor` class, whose `shown` set and notification list are updated by loops proved against that specification |
| `GuardsSetupScreen` | `guards_setup.dfy` | `src/components/GuardsSetup.tsx`: the roster form as a class with `handleAdd`, `handleDelete` and `handleSave`, plus the colour cycle and the supplemental-shift test |
| `ShiftManagementScreen` | `shift_management.dfy` | `src/components/ShiftManagement.tsx`: the board as a class with `loadData` and the two drop handlers, plus the per-target queries and the merged history sort |

Modelling decisions:

- **Times** are integer milliseconds. The source stores ISO date strings and
  compares them through `Date`.
  - "Elapsed minutes ≥ T" is stated as `now - actual >= 60000 * T`.
  - `Math.floor` of the elapsed minutes is Dafny's `/ 60000`, which floors
    because the divisor is positive.
  - The 5-minute bucket `Math.floor(duration / 5)` is `duration / 5`.
- **Missing meals and breaks.** The stored record's `meals` and `breaks` are
  optional here. The interface declares all five collections, but the
  record `getGuardsData` returns when nothing is stored has only three.
  - On such a record, `checkAlerts` throws at `data.breaks.forEach`, before
    it changes anything.
  - The model returns `None` from `CurrentAlerts` in that case, and
    `CheckAlerts` reports `completed == false` with the state unchanged.
- **Ids on drops.** Post and patrol entries have an optional `id`. The
  interface requires one, but the drop handlers never set it. The model
  follows the code.
- **Keys are strings.** Alert keys are built exactly as the template literal
  builds them, and the base key is computed with the same `split('-')`,
  `slice(0, -1)` and `join('-')` steps. Post and patrol names contain `-`
  themselves, so this matters.
- **Shown keys outlive their bucket.** The clean-up keeps a shown key while any
  current key starts with its base (`guard-label`). So while a guard and
  label keep alerting, a key of an earlier bucket stays shown, and coming
  back to that bucket (for example after the actual time is reset to a
  later moment) is not announced again. `ShownBucketKeptWhileTaskAlerts`
  states this; it is how the source behaves.
- **JavaScript truthiness.**
  - An empty dragged-guard name counts as "no guard".
  - An empty trimmed name or custom shift type counts as missing.

## Model

| member | source | states |
|---|---|---|
| GuardTypes.PostsDistinct | src/types/guards.ts:46-60 | there are 13 posts and no two are equal, so they can key the posts table |
| GuardTypes.PatrolsDistinct | src/types/guards.ts:62-78 | there are 15 patrol rounds and no two are equal |
| Storage.LocalStore.GetGuardsData | src/utils/storage.ts:5-15 | the stored record when the key is present; otherwise a record with an empty roster, empty post and patrol ledgers, and no meals or breaks at all |
| Storage.LocalStore.SaveGuardsData | src/utils/storage.ts:17-19 | the whole record under `guardsData` is replaced and other keys are untouched; reading back gives the saved record |
| JsStrings.SkipWhitespaceForwardSpec | src/components/GuardsSetup.tsx:51 | the leading cut of `trim` passes over whitespace only and stops at the first other character |
| JsStrings.SkipWhitespaceBackwardSpec | src/components/GuardsSetup.tsx:51 | the trailing cut of `trim` passes over whitespace only and stops after the last other character |
| JsStrings.Trim | src/components/GuardsSetup.tsx:51 | the result neither starts nor ends with whitespace |
| JsStrings.TrimIsMiddle | src/components/GuardsSetup.tsx:51 | the trimmed string is the part of the input between an all-whitespace prefix and an all-whitespace suffix |
| JsStrings.TrimEmptyIff | src/components/GuardsSetup.tsx:51 | a name trims to empty exactly when it is all whitespace, so such names are rejected |
| JsStrings.Includes | src/components/GuardsSetup.tsx:172 | `String.prototype.includes`: the text starts with the substring at its first position or at some later one; characterised by `IncludesIff` |
| JsStrings.IncludesIff | src/components/GuardsSetup.tsx:172 | `includes` holds exactly when the substring occurs at some index |
| JsStrings.Split | src/hooks/useAlertMonitor.tsx:91 | `split` always gives at least one part, even for the empty string |
| JsStrings.NextSeparatorSpec | src/hooks/useAlertMonitor.tsx:91 | the search for the next `-` passes over other characters only and stops at a separator or at the end |
| JsStrings.SplitPartsFree | src/hooks/useAlertMonitor.tsx:91 | no part of a split contains the separator |
| JsStrings.Join | src/hooks/useAlertMonitor.tsx:91 | `Array.prototype.join`: the parts with one separator between neighbours, and the empty string for no parts; partnered by `JoinSplit` and `SplitJoin` |
| JsStrings.JoinSplit | src/hooks/useAlertMonitor.tsx:91 | joining the parts of a split with the separator gives back the string |
| JsStrings.SplitJoin | src/hooks/useAlertMonitor.tsx:91 | splitting a join of separator-free parts gives back the parts |
| JsStrings.SplitAround | src/hooks/useAlertMonitor.tsx:91 | splitting around one separator concatenates the splits of the two sides |
| JsStrings.SplitFree | src/hooks/useAlertMonitor.tsx:91 | a string without the separator splits into itself alone |
| JsStrings.NatToString | src/hooks/useAlertMonitor.tsx:71 | the decimal rendering of a natural number is never empty; `NatToStringRoundTrip` shows it denotes the number |
| JsStrings.IntToString | src/hooks/useAlertMonitor.tsx:71 | the rendering of an integer in a template literal is non-empty and starts with `-` exactly when the integer is negative |
| JsStrings.NatToStringIsDigits | src/hooks/useAlertMonitor.tsx:71 | the rendering of a natural number is a non-empty run of digits |
| JsStrings.NatToStringRoundTrip | src/hooks/useAlertMonitor.tsx:71 | reading the digits back gives the number |
| JsStrings.IntToStringRoundTrip | src/hooks/useAlertMonitor.tsx:71 | the rendering of any integer is digits, with a leading minus when negative, and reads back as the integer |
| JsStrings.IntToStringInjective | src/hooks/useAlertMonitor.tsx:71 | distinct buckets render differently |
| UseAlertMonitor.PostLabel | src/hooks/useAlertMonitor.tsx:31 | a post alert's label is `עמדה: ` followed by the post name (its exact text is stated in `PostScanIff`) |
| UseAlertMonitor.Scan | src/hooks/useAlertMonitor.tsx:21-67 | one `forEach` pass: at most one alert per task, in task order; its content is fixed by `ScanMembership` and `ScanAppend` |
| UseAlertMonitor.CurrentAlerts | src/hooks/useAlertMonitor.tsx:19-67 | the tick's alert list is missing exactly when breaks or meals are missing, and otherwise has at most one alert per ledger entry |
| UseAlertMonitor.ScanAppend | src/hooks/useAlertMonitor.tsx:21-67 | each task is measured independently: the alerts of a concatenation are the alerts of the parts, in order |
| UseAlertMonitor.ScanMembership | src/hooks/useAlertMonitor.tsx:22-35 | every overdue task raises its alert, every alert comes from an overdue task, and a task without an actual time raises none |
| UseAlertMonitor.CurrentAlertsOrder | src/hooks/useAlertMonitor.tsx:21-67 | the alert list is the post alerts, then the break alerts, then the meal alerts; it is missing exactly when breaks or meals are missing |
| UseAlertMonitor.PostScanIff | src/hooks/useAlertMonitor.tsx:22-35 | a post entry raises an alert iff it has an actual time and its elapsed minutes reach the post threshold; the alert has label `עמדה: ` + post and duration floor(elapsed minutes) |
| UseAlertMonitor.BreakScanIff | src/hooks/useAlertMonitor.tsx:38-51 | a break raises an alert iff it has an actual time and reaches the break threshold; its label is `הפסקה` |
| UseAlertMonitor.MealScanIff | src/hooks/useAlertMonitor.tsx:54-67 | a meal raises an alert iff it has an actual time and reaches the meal threshold; its label is `אוכל` |
| UseAlertMonitor.CurrentAlertsIff | src/hooks/useAlertMonitor.tsx:21-67 | the tick's alerts are exactly the alerts of overdue posts, breaks and meals, each kind with its own threshold, so one guard can have several |
| UseAlertMonitor.PatrolsIgnored | src/hooks/useAlertMonitor.tsx:21-67 | the patrol ledger never affects the alerts |
| UseAlertMonitor.DefaultRecordThrows | src/utils/storage.ts:10-14 | on the record returned when nothing is stored, the tick does not complete |
| UseAlertMonitor.BreakThresholdExample | src/hooks/useAlertMonitor.tsx:38-51 | with a 15-minute break threshold, a break begun 16 minutes ago raises one alert of duration 16, and one begun 10 minutes ago raises none |
| UseAlertMonitor.AlertKey | src/hooks/useAlertMonitor.tsx:71 | the notify-once key `guard-label-bucket`; `KeyIffSameBucket` and `BaseKeyOfAlert` state what it identifies |
| UseAlertMonitor.BaseKey | src/hooks/useAlertMonitor.tsx:91 | `key.split('-').slice(0, -1).join('-')` on the key text; `BaseKeyIsPrefix` and `BaseKeyOfAlert` state what it gives |
| UseAlertMonitor.StillActive | src/hooks/useAlertMonitor.tsx:92-94 | a shown key is active when some current key starts with its base; used by `TickSpec` and `ForgottenKeyNotifiesAgain` |
| UseAlertMonitor.KeysOf | src/hooks/useAlertMonitor.tsx:86-88 | the set of the current alerts' keys; `KeysOfContains` and `KeysOfWitness` state both directions |
| UseAlertMonitor.JoinInitIsPrefix | src/hooks/useAlertMonitor.tsx:91 | joining all parts but the last gives a prefix of joining them all |
| UseAlertMonitor.BaseKeyIsPrefix | src/hooks/useAlertMonitor.tsx:91 | the base of any key is a prefix of the key |
| UseAlertMonitor.BaseKeyOfAlert | src/hooks/useAlertMonitor.tsx:71-91 | the base of an alert's key is `guard-label`, even when the label contains `-`; a negative bucket leaves a trailing `-` |
| UseAlertMonitor.KeyIffSameBucket | src/hooks/useAlertMonitor.tsx:71 | for one guard and label, two alerts share a key exactly when their durations fall in the same 5-minute bucket |
| UseAlertMonitor.KeysOfContains | src/hooks/useAlertMonitor.tsx:86-88 | the current key set holds the key of every current alert |
| UseAlertMonitor.KeysOfWitness | src/hooks/useAlertMonitor.tsx:86-88 | every key in the current key set is the key of some current alert |
| UseAlertMonitor.AnnounceUpTo | src/hooks/useAlertMonitor.tsx:70-83 | the `forEach` notification pass over the first `n` alerts, one alert at a time: an alert whose key is not shown is recorded and announced; `AnnouncePrefixToasts` states its notifications |
| UseAlertMonitor.Announce | src/hooks/useAlertMonitor.tsx:70-83 | the notification pass over all the alerts in order, as a specification; `AnnounceSpec` states its result |
| UseAlertMonitor.Cleanup | src/hooks/useAlertMonitor.tsx:85-99 | the clean-up keeps only shown keys, never adds one; `TickSpec` states which it keeps |
| UseAlertMonitor.Tick | src/hooks/useAlertMonitor.tsx:69-99 | one tick: the notification pass, then the clean-up against the current keys; stated by `TickSpec` and the notify lemmas |
| UseAlertMonitor.AnnounceShown | src/hooks/useAlertMonitor.tsx:70-83 | after the notification pass the shown set is the old one plus every current key |
| UseAlertMonitor.AnnounceKeys | src/hooks/useAlertMonitor.tsx:70-83 | the notified keys are exactly the current keys that were not shown before |
| UseAlertMonitor.AnnounceToasts | src/hooks/useAlertMonitor.tsx:70-83 | every notification is one of the current alerts, and no two notifications of one pass share a key |
| UseAlertMonitor.AnnounceSpec | src/hooks/useAlertMonitor.tsx:70-83 | after the notification pass every current key is shown and nothing else was added; notifications fire exactly for the keys not shown before, at most once per key, and each is one of the alerts; `AnnounceToastsInOrder` fixes which alert and in what order |
| UseAlertMonitor.FirstUnshownUpTo | src/hooks/useAlertMonitor.tsx:70-83 | a reference for the notifications independent of `Announce`: the alerts among the first `n`, in index order, whose key is not shown and not taken by an earlier alert; at most `n` of them, each one of those alerts |
| UseAlertMonitor.AnnounceSeesEarlierKeys | src/hooks/useAlertMonitor.tsx:72-73 | an alert's key is already in the shown set when its turn comes exactly when it was shown before the pass or an earlier alert of the pass has that key |
| UseAlertMonitor.AnnouncePrefixToasts | src/hooks/useAlertMonitor.tsx:70-83 | the pass over the first `n` alerts fires exactly the notifications of `FirstUnshownUpTo` |
| UseAlertMonitor.AnnounceToastsInOrder | src/hooks/useAlertMonitor.tsx:70-83 | the notifications are, in alert order, exactly the alerts whose key is not shown and not used by an earlier alert: of several alerts sharing a key the first is announced, with its own duration |
| UseAlertMonitor.TickSpec | src/hooks/useAlertMonitor.tsx:86-99 | clean-up never removes a key of the current tick, and keeps a shown key iff some current key starts with its base |
| UseAlertMonitor.SameBucketNotifiesOnce | src/hooks/useAlertMonitor.tsx:71-74 | a guard and label that stay in the same 5-minute bucket across two ticks notify only in the first |
| UseAlertMonitor.NewKeyNotifiesOnce | src/hooks/useAlertMonitor.tsx:73-82 | an alert whose key is not yet shown is announced exactly once in the tick |
| UseAlertMonitor.NewBucketNotifiesAgain | src/hooks/useAlertMonitor.tsx:71-99 | from any shown set without a key, a first tick that does not generate that key leaves it unshown, and a second tick that does generate it announces it exactly once, whatever else either tick alerts |
| UseAlertMonitor.NewBucketOfSameTaskNotifiesAgain | src/hooks/useAlertMonitor.tsx:71-74 | entering a new 5-minute bucket whose key is not shown announces exactly once, when every alert of the first tick was for that guard and label, in another bucket (`NewBucketNotifiesAgain` is the general case) |
| UseAlertMonitor.BaseKeyCoversTask | src/hooks/useAlertMonitor.tsx:91-94 | the base of a non-negative bucket's key is a prefix of every key of the same guard and label |
| UseAlertMonitor.ShownBucketKeptWhileTaskAlerts | src/hooks/useAlertMonitor.tsx:86-99 | a shown key of a non-negative bucket survives every tick in which its guard and label alert in any bucket, so returning to that bucket is not announced |
| UseAlertMonitor.ForgottenKeyNotifiesAgain | src/hooks/useAlertMonitor.tsx:90-98 | a shown key whose base no current key starts with is deleted, so the same condition notifies again when it returns |
| UseAlertMonitor.PushPostAlerts | src/hooks/useAlertMonitor.tsx:21-35 | the post loop appends exactly the alerts of the overdue post entries, in ledger order |
| UseAlertMonitor.PushBreakAlerts | src/hooks/useAlertMonitor.tsx:37-51 | the break loop appends exactly the alerts of the overdue breaks, in ledger order |
| UseAlertMonitor.PushMealAlerts | src/hooks/useAlertMonitor.tsx:53-67 | the meal loop appends exactly the alerts of the overdue meals, in ledger order |
| UseAlertMonitor.CollectAlerts | src/hooks/useAlertMonitor.tsx:19-67 | the three ledger loops build exactly `CurrentAlerts`, and give none when breaks or meals are missing |
| UseAlertMonitor.AlertMonitor.constructor | src/hooks/useAlertMonitor.tsx:12 | the shown-key set starts empty and nothing has been notified |
| UseAlertMonitor.AlertMonitor.CheckAlerts | src/hooks/useAlertMonitor.tsx:15-100 | one tick on the stored record: when it completes, the shown set and the notifications are those of `Tick`; otherwise nothing changes |
| UseAlertMonitor.AlertMonitor.AnnounceNew | src/hooks/useAlertMonitor.tsx:70-83 | the notification loop reaches the state of `Announce` |
| UseAlertMonitor.AlertMonitor.ForgetInactive | src/hooks/useAlertMonitor.tsx:86-99 | the delete-while-iterating loop leaves exactly `Cleanup` of the shown set |
| GuardsSetupScreen.ColorFor | src/components/GuardsSetup.tsx:56 | a new guard's colour is always one of the ten palette colours |
| GuardsSetupScreen.FinalShiftType | src/components/GuardsSetup.tsx:57 | the shift type is the trimmed custom one (without surrounding whitespace) whenever it is not empty, and the selected one otherwise |
| GuardsSetupScreen.IsTamach | src/components/GuardsSetup.tsx:172 | a guard is on supplemental duty when its shift type includes `תמך`; `SupplementalShiftTypes` says which offered types do |
| GuardsSetupScreen.WithoutIndex | src/components/GuardsSetup.tsx:75 | filtering out an in-range position removes one element, an out-of-range one none |
| GuardsSetupScreen.ColorsCycle | src/components/GuardsSetup.tsx:16-27 | colours repeat with period 10, and any ten guards added in a row get ten different colours |
| GuardsSetupScreen.SupplementalShiftTypes | src/components/GuardsSetup.tsx:29-36 | of the six offered shift types, exactly the two `תמך` ones mark supplemental duty |
| GuardsSetupScreen.ExcludedWithoutFirstChar | src/components/GuardsSetup.tsx:172 | a shift type lacking the marker's first letter does not include the marker |
| GuardsSetupScreen.WithoutIndexSpec | src/components/GuardsSetup.tsx:75 | filtering out a position removes exactly that element and keeps the order of the rest; an out-of-range position removes nothing |
| GuardsSetupScreen.AddThenDelete | src/components/GuardsSetup.tsx:66-75 | deleting the guard just added gives back the roster |
| GuardsSetupScreen.GuardsSetup.constructor | src/components/GuardsSetup.tsx:39-43 | the form starts empty, certified, on `בוקר 7-15`, with an empty roster |
| GuardsSetupScreen.GuardsSetup.Load | src/components/GuardsSetup.tsx:45-48 | the roster starts as the stored roster |
| GuardsSetupScreen.GuardsSetup.HandleAdd | src/components/GuardsSetup.tsx:50-72 | a name that trims to empty is rejected and nothing changes; otherwise exactly one guard is appended, with the trimmed name, the colour `GUARD_COLORS[len % 10]` and the trimmed custom shift type or else the selected one, and the form is reset |
| GuardsSetupScreen.GuardsSetup.HandleDelete | src/components/GuardsSetup.tsx:74-78 | the guard at the index is removed and the others keep their order; an out-of-range index changes nothing |
| GuardsSetupScreen.GuardsSetup.HandleSave | src/components/GuardsSetup.tsx:80-91 | an empty roster is rejected with no write; otherwise only the stored roster is replaced and the other collections are kept |
| ShiftManagementScreen.GuardsAtPost | src/components/ShiftManagement.tsx:86-88 | the post query lists at most one guard per ledger entry; its contents are fixed by `GuardsAtPostAppend` and `GuardsAtPostMembership` |
| ShiftManagementScreen.GuardsOnPatrol | src/components/ShiftManagement.tsx:90-92 | the patrol query lists at most one guard per ledger entry; its contents are fixed by `GuardsOnPatrolAppend` and `GuardsOnPatrolMembership` |
| ShiftManagementScreen.GuardsAtPostAppend | src/components/ShiftManagement.tsx:86-88 | the post query distributes over concatenation, so it keeps ledger order and duplicates |
| ShiftManagementScreen.GuardsOnPatrolAppend | src/components/ShiftManagement.tsx:90-92 | the patrol query distributes over concatenation, so it keeps ledger order and duplicates |
| ShiftManagementScreen.GuardsAtPostMembership | src/components/ShiftManagement.tsx:86-88 | a guard is listed for a post iff some entry places them there |
| ShiftManagementScreen.GuardsOnPatrolMembership | src/components/ShiftManagement.tsx:90-92 | a guard is listed for a patrol iff some entry places them there |
| ShiftManagementScreen.PatrolQueryIsPostQuery | src/components/ShiftManagement.tsx:90-92 | the patrol query equals the post query over the patrol ledger relabelled as posts |
| ShiftManagementScreen.PatrolAsPost | src/components/ShiftManagement.tsx:216 | `{ ...p, post: p.patrol }`: same guard and time, with the round as the post |
| ShiftManagementScreen.PatrolsAsPosts | src/components/ShiftManagement.tsx:216 | each patrol entry is shown as an entry with the same guard and time and its round in place of the post |
| ShiftManagementScreen.SortByTimeDesc | src/components/ShiftManagement.tsx:217 | the sort keeps the number of entries |
| ShiftManagementScreen.Insert | src/components/ShiftManagement.tsx:217 | one insertion step of the stable latest-first sort adds one entry; `InsertPermutation`, `InsertSorted` and `InsertStable` state where |
| ShiftManagementScreen.InsertPermutation | src/components/ShiftManagement.tsx:217 | inserting one entry adds exactly that entry |
| ShiftManagementScreen.SortByTimeDescPermutation | src/components/ShiftManagement.tsx:217 | the sort only reorders: the result is a permutation of the input |
| ShiftManagementScreen.SortByTimeDescSorted | src/components/ShiftManagement.tsx:217 | the sorted list is latest first |
| ShiftManagementScreen.SortByTimeDescStable | src/components/ShiftManagement.tsx:217 | entries with equal times keep their relative order, as in ECMAScript's stable sort |
| ShiftManagementScreen.History | src/components/ShiftManagement.tsx:216-217 | the history has as many entries as both ledgers together, is a permutation of the post entries followed by the relabelled patrol entries, and is latest first |
| ShiftManagementScreen.HistoryStable | src/components/ShiftManagement.tsx:216-217 | for equal times, post entries come before patrol entries, each in ledger order |
| ShiftManagementScreen.DroppedEntryRaisesNoAlert | src/components/ShiftManagement.tsx:41-45 | a freshly dropped entry has no actual time, so it changes no tick's alerts |
| ShiftManagementScreen.RosterNames | src/components/ShiftManagement.tsx:25 | `data.guards.map(g => g.name)`: one name per guard, in roster order |
| ShiftManagementScreen.Dragging | src/components/ShiftManagement.tsx:39 | the drop handlers act only on a dragged guard that is neither `null` nor the empty string |
| ShiftManagementScreen.ShiftManagement.constructor | src/components/ShiftManagement.tsx:14-17 | no names, empty ledgers, and no dragged guard |
| ShiftManagementScreen.ShiftManagement.LoadData | src/components/ShiftManagement.tsx:23-28 | the offered names are the roster's names in roster order, and both ledgers come from the stored record |
| ShiftManagementScreen.ShiftManagement.HandleDragStart | src/components/ShiftManagement.tsx:30-32 | the dragged guard is remembered and nothing else changes |
| ShiftManagementScreen.ShiftManagement.HandleDropPost | src/components/ShiftManagement.tsx:38-56 | without a (non-empty) dragged guard nothing changes; otherwise exactly one `{guard, post, time: now}` without id or actual time is appended, only the stored post ledger is replaced, the drag ends, and the post's guard list gains that guard at its end |
| ShiftManagementScreen.ShiftManagement.HandleDropPatrol | src/components/ShiftManagement.tsx:58-76 | the same for a patrol round: one entry appended, only the stored patrol ledger replaced, the drag ends |

## Left out

- `handleReset` (src/components/ShiftManagement.tsx:78-84) and `resetGuardsData`: the operation is gated by a `confirm` dialog and ends by switching screens.
- `handleDragOver` and drag-event capture, all JSX rendering and styling, and the `toast` texts. A notification is modelled as the alert appended to `notifications`.
- `formatTime`, `toLocaleTimeString`, and ISO date parsing. Times are integer milliseconds, so an invalid date string (which JavaScript turns into `NaN`) is not modelled.
- The timer: `setInterval`, `clearInterval` and the `useEffect` lifecycle. `CheckAlerts` is one tick at an explicit time `now`.
- `getShiftSettings` is imported from src/utils/storage.ts but not defined there, so it is not part of this model. The three thresholds are a parameter, and they are whole minutes.
- JSON serialisation of the stored record, and malformed stored text. The store holds record values.
- The actual time of a task is either absent or a time. An empty-string actual time, which JavaScript also treats as absent, is not a separate case.
- `JsStrings.IntToString`: the exponent notation JavaScript uses for numbers of magnitude 10^21 and more is not modelled, because bucket numbers never get that large.
- `ShiftManagementScreen.History`: items built from patrol entries keep their `patrol` field in the source; the model keeps only the post view of them.
- The `onComplete` and `onReset` screen switches, and the app's routing and providers.
- Concurrency between browser tabs sharing the store: each handler reads and writes the record in one step.
