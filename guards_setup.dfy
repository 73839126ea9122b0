/** The roster editor of src/components/GuardsSetup.tsx: a form (name,
    certification, shift type, optional custom shift type) that appends guards
    to a local roster, deletes them by position, and saves the roster into the
    stored record. */
module GuardsSetupScreen {
  import opened GuardTypes
  import opened JsStrings
  import opened Storage

  /** The display colours handed out to guards in turn. */
  const GUARD_COLORS: seq<string> := [
    "hsl(140, 70%, 50%)",
    "hsl(200, 80%, 50%)",
    "hsl(180, 70%, 50%)",
    "hsl(280, 70%, 60%)",
    "hsl(30, 80%, 55%)",
    "hsl(300, 65%, 55%)",
    "hsl(60, 70%, 50%)",
    "hsl(340, 75%, 55%)",
    "hsl(160, 65%, 50%)",
    "hsl(20, 75%, 55%)"
  ]

  /** The shift types offered by the selector. */
  const SHIFT_TYPES: seq<string> := [
    "בוקר 6-14",
    "בוקר 7-15",
    "תמך 7-19",
    "תמך 8-20",
    "ערב 14-22",
    "ערב 15-23"
  ]

  /** The selector's initial value, restored after every successful add. */
  const DEFAULT_SHIFT_TYPE: string := "בוקר 7-15"

  /** The marker of supplemental ("bridge") duty inside a shift type. */
  const SUPPLEMENTAL_MARKER: string := "תמך"

  /** The colour of the guard added when the roster holds `count` guards. */
  function ColorFor(count: nat): (color: string)
    ensures color in GUARD_COLORS
  {
    GUARD_COLORS[count % |GUARD_COLORS|]
  }

  /** Colours cycle with period 10, and any ten guards added in a row get ten
      different colours. */
  lemma ColorsCycle(i: nat, j: nat)
    ensures ColorFor(i + 10) == ColorFor(i)
    ensures i < j < i + 10 ==> ColorFor(i) != ColorFor(j)
  {
    assert Distinct(GUARD_COLORS);
    if i < j < i + 10 {
      assert i % 10 != j % 10;
    }
  }

  /** The shift type of a new guard: the trimmed custom value when it is not
      empty, otherwise the selected one. */
  function FinalShiftType(customShiftType: string, shiftType: string): (r: string)
    ensures r == shiftType || r == Trim(customShiftType)
    ensures Trim(customShiftType) != "" ==> r == Trim(customShiftType) && !IsWhitespace(r[0]) && !IsWhitespace(r[|r| - 1])
    ensures Trim(customShiftType) == "" ==> r == shiftType
  {
    var custom := Trim(customShiftType);
    if custom != "" then custom else shiftType
  }

  /** A guard is on supplemental duty when its shift type contains the marker;
      a guard without a shift type is not. */
  predicate IsTamach(g: Guard) {
    g.shiftType.Some? && Includes(g.shiftType.value, SUPPLEMENTAL_MARKER)
  }

  /** Of the offered shift types, exactly the two "תמך" ones mark supplemental duty. */
  lemma SupplementalShiftTypes()
    ensures forall i | 0 <= i < |SHIFT_TYPES| ::
      IsTamach(Guard("", true, None, Some(SHIFT_TYPES[i]))) <==> i == 2 || i == 3
  {
    var m := SUPPLEMENTAL_MARKER;
    assert m <= SHIFT_TYPES[2] && m <= SHIFT_TYPES[3];
    forall i | 0 <= i < |SHIFT_TYPES| && i != 2 && i != 3
      ensures !Includes(SHIFT_TYPES[i], m)
    {
      assert m[0] !in SHIFT_TYPES[i];
      ExcludedWithoutFirstChar(SHIFT_TYPES[i], m);
    }
  }

  /** A string lacking the first character of `sub` does not include `sub`. */
  lemma {:induction false} ExcludedWithoutFirstChar(s: string, sub: string)
    requires |sub| > 0 && sub[0] !in s
    ensures !Includes(s, sub)
  {
    if |s| > 0 {
      ExcludedWithoutFirstChar(s[1..], sub);
    }
  }

  /** `s.filter((_, i) => i !== index)`. */
  function WithoutIndex<T>(s: seq<T>, index: int): (r: seq<T>)
    ensures |r| == if 0 <= index < |s| then |s| - 1 else |s|
  {
    if |s| == 0 then []
    else WithoutIndex(s[..|s| - 1], index) + (if |s| - 1 == index then [] else [s[|s| - 1]])
  }

  /** Filtering out a position removes exactly that element and keeps the order
      of the rest; a position out of range removes nothing. */
  lemma {:induction false} WithoutIndexSpec<T>(s: seq<T>, index: int)
    ensures 0 <= index < |s| ==> WithoutIndex(s, index) == s[..index] + s[index + 1..]
    ensures !(0 <= index < |s|) ==> WithoutIndex(s, index) == s
  {
    if |s| > 0 {
      var init := s[..|s| - 1];
      WithoutIndexSpec(init, index);
      if index == |s| - 1 {
        assert WithoutIndex(init, index) == init;
        assert s[index + 1..] == [];
      } else if 0 <= index < |s| - 1 {
        assert init[..index] == s[..index];
        assert init[index + 1..] + [s[|s| - 1]] == s[index + 1..];
      } else {
        assert init + [s[|s| - 1]] == s;
      }
    }
  }

  /** Deleting the guard just added gives back the roster. */
  lemma AddThenDelete(guards: seq<Guard>, g: Guard)
    ensures WithoutIndex(guards + [g], |guards|) == guards
  {
    WithoutIndexSpec(guards + [g], |guards|);
    assert (guards + [g])[..|guards|] == guards;
  }

  /** The screen's state: the form fields and the roster being edited. */
  class GuardsSetup {
    var name: string
    var certified: bool
    var shiftType: string
    var customShiftType: string
    var guards: seq<Guard>
    const store: LocalStore

    /** The form's initial values and an empty roster. */
    constructor (store: LocalStore)
      ensures this.store == store
      ensures name == "" && certified && shiftType == DEFAULT_SHIFT_TYPE && customShiftType == ""
      ensures guards == []
    {
      this.store := store;
      name := "";
      certified := true;
      shiftType := DEFAULT_SHIFT_TYPE;
      customShiftType := "";
      guards := [];
    }

    /** The mount effect: the roster starts as the stored roster. */
    method Load()
      modifies this`guards
      ensures guards == store.GetGuardsData().guards
    {
      var data := store.GetGuardsData();
      guards := data.guards;
    }

    /** `handleAdd`: a name that trims to nothing is rejected and nothing
        changes; otherwise one guard is appended (duplicates allowed) and the
        form is reset. */
    method HandleAdd() returns (added: bool)
      modifies this
      ensures added == (Trim(old(name)) != "")
      ensures !added ==> && guards == old(guards) && name == old(name) && certified == old(certified)
                         && shiftType == old(shiftType) && customShiftType == old(customShiftType)
      ensures added ==> guards == old(guards) + [Guard(Trim(old(name)), old(certified),
                                   Some(ColorFor(|old(guards)|)),
                                   Some(FinalShiftType(old(customShiftType), old(shiftType))))]
      ensures added ==> name == "" && certified && shiftType == DEFAULT_SHIFT_TYPE && customShiftType == ""
    {
      var trimmedName := Trim(name);
      added := trimmedName != "";
      if added {
        var newGuard := Guard(trimmedName, certified, Some(ColorFor(|guards|)), Some(FinalShiftType(customShiftType, shiftType)));
        guards := guards + [newGuard];
        name := "";
        certified := true;
        shiftType := DEFAULT_SHIFT_TYPE;
        customShiftType := "";
      }
    }

    /** `handleDelete`: drop the guard at `index`, keeping the others in order;
        an index out of range changes nothing. */
    method HandleDelete(index: int)
      modifies this`guards
      ensures 0 <= index < |old(guards)| ==> guards == old(guards)[..index] + old(guards)[index + 1..]
      ensures !(0 <= index < |old(guards)|) ==> guards == old(guards)
    {
      WithoutIndexSpec(guards, index);
      guards := WithoutIndex(guards, index);
    }

    /** `handleSave`: an empty roster is rejected with no write; otherwise the
        stored record gets this roster and keeps its other collections. */
    method HandleSave() returns (saved: bool)
      modifies store
      ensures saved == (|guards| > 0)
      ensures !saved ==> store.items == old(store.items)
      ensures saved ==> store.items == old(store.items)[STORAGE_KEY := old(store.GetGuardsData()).(guards := guards)]
    {
      if |guards| == 0 {
        return false;
      }
      var data := store.GetGuardsData();
      data := data.(guards := guards);
      store.SaveGuardsData(data);
      saved := true;
    }
  }
}
