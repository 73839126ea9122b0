/** Shapes of the roster and task ledger records (src/types/guards.ts) and the
    two fixed target lists. Times are integer milliseconds since the epoch. */
module GuardTypes {

  datatype Option<+T> = None | Some(value: T)

  /** A roster member. `color` and `shiftType` are optional fields. */
  datatype Guard = Guard(name: string, certified: bool, color: Option<string>, shiftType: Option<string>)

  /** A guard placed on a post. The drop handler never sets `id`, so it is optional here. */
  datatype Assignment = Assignment(id: Option<string>, guard: string, post: string, time: int, actualTime: Option<int>)

  /** A guard placed on a patrol round. As for posts, `id` is never set by the drop handler. */
  datatype PatrolAssignment = PatrolAssignment(id: Option<string>, guard: string, patrol: string, time: int, actualTime: Option<int>)

  /** A meal break; it has no target. */
  datatype MealAssignment = MealAssignment(id: string, guard: string, time: int, actualTime: Option<int>)

  /** A rest break; it has no target. */
  datatype BreakAssignment = BreakAssignment(id: string, guard: string, time: int, actualTime: Option<int>)

  /** The stored record. Its five collections are declared required, but the
      record returned for a missing storage entry has no `meals` and no
      `breaks`, so those two may be absent from what is actually stored. */
  datatype GuardsData = GuardsData(
    guards: seq<Guard>,
    assignments: seq<Assignment>,
    patrols: seq<PatrolAssignment>,
    meals: Option<seq<MealAssignment>>,
    breaks: Option<seq<BreakAssignment>>)

  /** The fixed posts, in display order. */
  const POSTS: seq<string> := [
    "לובי עמידה",
    "לובי דסק",
    "דסק 15",
    "סייר 4-7",
    "סייר 4-5",
    "סייר 6-7",
    "סייר 15-19",
    "סייר2 15-19",
    "סייר 20-23",
    "סייר 15-23",
    "אירוע 1",
    "אירוע 2",
    "אירוע 3"
  ]

  /** The fixed patrol rounds, in display order. */
  const PATROLS: seq<string> := [
    "פ.ע-7",
    "פ.ת-7",
    "RL-9",
    "פ.ע-11",
    "פ.ת-11",
    "RL-13",
    "פ.ע-15",
    "פ.ת-15",
    "RL-16:30",
    "פ.ת-17",
    "פ.ע-17",
    "RL-19:30",
    "פ.ת-21",
    "פ.ע-21",
    "פ. שרונה"
  ]

  /** No two elements of `s` are equal. */
  predicate Distinct(s: seq<string>) {
    forall i, j | 0 <= i < j < |s| :: s[i] != s[j]
  }

  /** The posts are used as row keys of the posts table, so they must be distinct. */
  lemma PostsDistinct()
    ensures |POSTS| == 13 && Distinct(POSTS)
  {
  }

  /** The patrols are used as row keys of the patrols table, so they must be distinct. */
  lemma PatrolsDistinct()
    ensures |PATROLS| == 15 && Distinct(PATROLS)
  {
  }
}
