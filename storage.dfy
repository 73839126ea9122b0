/** Client-local persistent storage (src/utils/storage.ts): a key-value store
    holding the roster and task ledger record under one key. The record is kept
    as a value; its JSON text is not modelled. */
module Storage {
  import opened GuardTypes

  const STORAGE_KEY: string := "guardsData"

  /** The record returned when nothing is stored: an empty roster and empty post
      and patrol ledgers, and no meal or break collections at all. */
  const DEFAULT_GUARDS_DATA: GuardsData := GuardsData([], [], [], None, None)

  class LocalStore {
    /** The stored entries, by key. */
    var items: map<string, GuardsData>

    constructor ()
      ensures items == map[]
    {
      items := map[];
    }

    /** `getGuardsData`: the stored record, or the default record when the key is absent. */
    function GetGuardsData(): (d: GuardsData)
      reads this
      ensures STORAGE_KEY in items ==> d == items[STORAGE_KEY]
      ensures STORAGE_KEY !in items ==> d.guards == [] && d.assignments == [] && d.patrols == []
      ensures STORAGE_KEY !in items ==> d.meals.None? && d.breaks.None?
    {
      if STORAGE_KEY in items then items[STORAGE_KEY] else DEFAULT_GUARDS_DATA
    }

    /** `saveGuardsData`: overwrite the whole record; other keys are untouched. */
    method SaveGuardsData(d: GuardsData)
      modifies this
      ensures items == old(items)[STORAGE_KEY := d]
      ensures GetGuardsData() == d
    {
      items := items[STORAGE_KEY := d];
    }
  }
}
