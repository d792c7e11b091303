/**
 * The selector: the current selection, the button map built from the
 * registry at construction, grid presses that change and save the
 * selection, and running the selected auton or one named by the caller.
 */
module Selection {
  import opened Optional
  import opened Autons
  import opened ButtonMap
  import opened Persistence

  /** What one run request did. A null function pointer would be called in the source: `NullCall` marks that fault. */
  datatype RunOutcome = NotSelected | NoMatch | Ran(index: nat) | NullCall(index: nat)

  /** The effect of running `name` against the registry: the first entry of that name, if any. */
  function Dispatch(reg: seq<Auton>, name: string): (r: RunOutcome)
    ensures r.NoMatch? <==> forall j :: 0 <= j < |reg| ==> reg[j].name != name
    ensures r.Ran? || r.NullCall? ==>
      r.index < |reg| && reg[r.index].name == name && r.Ran? == reg[r.index].hasAction &&
      forall j :: 0 <= j < r.index ==> reg[j].name != name
    ensures !r.NotSelected?
  {
    match FindByName(reg, name)
    case None => NoMatch
    case Some(i) => if reg[i].hasAction then Ran(i) else NullCall(i)
  }

  /** The entries whose action a run outcome invoked. */
  function Invoked(o: RunOutcome): seq<nat>
  {
    if o.Ran? then [o.index] else []
  }

  /** is_auton_selected's test: a selection that is neither null nor one of the two sentinels. */
  predicate Selectable(sel: Option<string>)
  {
    sel.Some? && sel.value != NO_AUTON_TEXT && sel.value != INVALID_AUTON_TEXT
  }

  /** The selection a freshly constructed selector starts with. */
  function InitialSelection(files: Storage, reg: seq<Auton>): Option<string>
  {
    var saved := SavedAuton(files, reg);
    if saved.Some? then saved else Some(NO_AUTON_TEXT)
  }

  class Selector {
    /** The global registry; run requests consult it as it is at the time of the request. */
    const registry: Registry
    /** The static button map given to the button matrix. */
    const btnMap: array<string>
    /** The registry as it was when the button map was built. */
    ghost const shown: seq<Auton>
    var selected: Option<string>
    var files: Storage
    /** Every action invoked so far, as registry positions, oldest first. */
    ghost var ranLog: seq<nat>

    ghost predicate Valid()
      reads this, btnMap
    {
      && btnMap.Length == BUTTON_MAP_LENGTH
      && btnMap[..] == Layout(shown, SELECTOR_ROWS, SELECTOR_COLS)
      && selected.Some?
    }

    /** Restores the saved selection, if the registry knows it, and builds the button map. */
    constructor (registry: Registry, storage: Storage)
      ensures Valid() && fresh(btnMap)
      ensures this.registry == registry && shown == registry.entries
      ensures files == storage && ranLog == []
      ensures selected == InitialSelection(storage, registry.entries)
    {
      var sel := Some(NO_AUTON_TEXT);
      var saved := ReadSavedAuton(storage, registry.entries);
      if saved.Some? {
        sel := saved;
      }
      var m := new string[BUTTON_MAP_LENGTH];
      FillButtonMap(registry.entries, m);
      this.registry := registry;
      btnMap := m;
      shown := registry.entries;
      selected := sel;
      files := storage;
      ranLog := [];
    }

    /**
     * A press on grid button `id`: the button's text becomes the selection
     * verbatim and is written out. `isOpen` says whether the file opened.
     */
    method HandleGridPress(id: nat, isOpen: bool)
      requires Valid() && id < |ButtonTexts(btnMap[..])|
      modifies this`selected, this`files
      ensures Valid()
      ensures selected == Some(ButtonTexts(btnMap[..])[id])
      ensures files == WriteSavedAuton(old(files), selected.value, isOpen)
    {
      var text := ButtonTexts(btnMap[..])[id];
      selected := Some(text);
      files := WriteSavedAuton(files, text, isOpen);
    }

    method IsAutonSelected() returns (b: bool)
      ensures b <==> Selectable(selected)
    {
      if selected.None? {
        return false;
      }
      if selected.value == NO_AUTON_TEXT {
        return false;
      }
      if selected.value == INVALID_AUTON_TEXT {
        return false;
      }
      return true;
    }

    /** Runs the first registry entry called `name`; nothing else changes. */
    method RunAuton(name: string) returns (outcome: RunOutcome)
      requires Valid()
      modifies this`ranLog
      ensures Valid()
      ensures outcome == Dispatch(registry.entries, name)
      ensures ranLog == old(ranLog) + Invoked(outcome)
    {
      var k := LookUp(registry.entries, name);
      if k.None? {
        return NoMatch;
      }
      var i := k.value;
      if registry.entries[i].hasAction {
        ranLog := ranLog + [i];
        outcome := Ran(i);
      } else {
        outcome := NullCall(i);
      }
    }

    /** Runs the selection if it is a real one. */
    method RunSelectedAuton() returns (outcome: RunOutcome)
      requires Valid()
      modifies this`ranLog
      ensures Valid()
      ensures outcome == if Selectable(selected) then Dispatch(registry.entries, selected.value) else NotSelected
      ensures ranLog == old(ranLog) + Invoked(outcome)
    {
      var ok := IsAutonSelected();
      if !ok {
        return NotSelected;
      }
      outcome := RunAuton(selected.value);
    }

    /** The selection is never null once the selector exists. */
    method GetSelectedAutonName() returns (name: Option<string>)
      requires Valid()
      ensures name == selected && name.Some?
    {
      return selected;
    }
  }

  /**
   * The button with number `id` shows the label of registry position `id`,
   * so a press makes a real selection exactly when that position holds an
   * entry with an action whose name is not a sentinel.
   */
  lemma PressSelectable(reg: seq<Auton>, id: nat)
    requires id < SELECTOR_ROWS * SELECTOR_COLS && Displayable(reg, SELECTOR_ROWS * SELECTOR_COLS)
    ensures id < |ButtonTexts(Layout(reg, SELECTOR_ROWS, SELECTOR_COLS))|
    ensures Selectable(Some(ButtonTexts(Layout(reg, SELECTOR_ROWS, SELECTOR_COLS))[id])) <==>
      id < |reg| && reg[id].hasAction && reg[id].name != NO_AUTON_TEXT && reg[id].name != INVALID_AUTON_TEXT
  {
    ButtonsOfLayout(reg, SELECTOR_ROWS, SELECTOR_COLS);
  }

  /**
   * Pressing the button of an entry with an action, then running the
   * selection, runs the first entry of that name: the pressed one itself
   * unless an earlier entry shares its name.
   */
  lemma PressThenRun(reg: seq<Auton>, id: nat)
    requires id < |reg| && id < SELECTOR_ROWS * SELECTOR_COLS && Displayable(reg, SELECTOR_ROWS * SELECTOR_COLS)
    requires reg[id].hasAction && reg[id].name != NO_AUTON_TEXT && reg[id].name != INVALID_AUTON_TEXT
    ensures id < |ButtonTexts(Layout(reg, SELECTOR_ROWS, SELECTOR_COLS))|
    ensures var text := ButtonTexts(Layout(reg, SELECTOR_ROWS, SELECTOR_COLS))[id];
      && text == reg[id].name
      && Selectable(Some(text))
      && var o := Dispatch(reg, text);
      && (o.Ran? || o.NullCall?) && o.index <= id && reg[o.index].name == text
      && ((forall j :: 0 <= j < id ==> reg[j].name != text) ==> o == Ran(id))
  {
    ButtonsOfLayout(reg, SELECTOR_ROWS, SELECTOR_COLS);
  }
}
