/**
 * The auton registry: an append-only list of named routines, each of which
 * may or may not carry a callable action, and the first-match lookup by name
 * that every consumer of the registry uses.
 */
module Autons {
  import opened Optional

  /** Cell text for a grid cell past the end of the registry; also the initial selection. */
  const NO_AUTON_TEXT: string := "No Auton"
  /** Cell text for a registry entry whose function pointer is null. */
  const INVALID_AUTON_TEXT: string := "Invalid Auton"

  /** One registry entry. `hasAction` is false when the function pointer is null. */
  datatype Auton = Auton(name: string, hasAction: bool)

  /** Index of the first entry called `name`, if any (names compared as strcmp does). */
  function FindByName(reg: seq<Auton>, name: string): (r: Option<nat>)
    ensures r.Some? ==> r.value < |reg| && reg[r.value].name == name
    ensures r.Some? ==> forall j :: 0 <= j < r.value ==> reg[j].name != name
    ensures r.None? ==> forall j :: 0 <= j < |reg| ==> reg[j].name != name
  {
    if reg == [] then None
    else if reg[0].name == name then Some(0)
    else match FindByName(reg[1..], name)
      case None => None
      case Some(i) => Some(i + 1)
  }

  /** The early-exit scan over the registry that the restore and run paths share. */
  method LookUp(reg: seq<Auton>, name: string) returns (k: Option<nat>)
    ensures k == FindByName(reg, name)
  {
    var i := 0;
    while i < |reg|
      invariant 0 <= i <= |reg|
      invariant forall j :: 0 <= j < i ==> reg[j].name != name
    {
      if reg[i].name == name {
        return Some(i);
      }
      i := i + 1;
    }
    return None;
  }

  /**
   * Registering after an existing name never changes which entry that name
   * resolves to: an earlier entry shadows every later one with the same name.
   */
  lemma {:induction false} FindByNameAfterRegister(reg: seq<Auton>, a: Auton, name: string)
    ensures FindByName(reg + [a], name) ==
      if FindByName(reg, name).Some? then FindByName(reg, name)
      else if a.name == name then Some(|reg|)
      else None
  {
    if reg != [] && reg[0].name != name {
      assert (reg + [a])[1..] == reg[1..] + [a];
      FindByNameAfterRegister(reg[1..], a, name);
    }
  }

  /** The process-wide registry that every `auton` constructor appends to. */
  class Registry {
    var entries: seq<Auton>

    constructor ()
      ensures entries == []
    {
      entries := [];
    }

    /** Appends one entry at the end; earlier entries and their order are untouched. */
    method Register(name: string, hasAction: bool)
      modifies this
      ensures entries == old(entries) + [Auton(name, hasAction)]
    {
      entries := entries + [Auton(name, hasAction)];
    }
  }
}
