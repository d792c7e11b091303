/**
 * A client of the selector, in the order a program uses it: register
 * autons at start-up, construct the selector, press grid buttons and run.
 */
module Scenario {
  import opened Optional
  import opened Autons
  import opened ButtonMap
  import opened Persistence
  import opened Selection

  /** Left, Right and the null-action Skills fill column 0; the rest says "No Auton". */
  method GridOfThree()
  {
    var reg := [Auton("Left", true), Auton("Right", true), Auton("Skills", false)];
    assert Displayable(reg, SELECTOR_ROWS * SELECTOR_COLS);
    ButtonsOfLayout(reg, SELECTOR_ROWS, SELECTOR_COLS);
    var buttons := ButtonTexts(Layout(reg, SELECTOR_ROWS, SELECTOR_COLS));
    assert buttons[0] == "Left" && buttons[1] == "Right";
    assert buttons[2] == INVALID_AUTON_TEXT && buttons[3] == NO_AUTON_TEXT;
    assert buttons[15] == NO_AUTON_TEXT;
    EntryAt(reg, SELECTOR_ROWS, SELECTOR_COLS, 4);
    assert Layout(reg, SELECTOR_ROWS, SELECTOR_COLS)[5] == NO_AUTON_TEXT;
  }

  method StartUpWithoutSavedFile()
  {
    var registry := new Registry();
    registry.Register("Left", true);
    registry.Register("Right", true);
    var s := new Selector(registry, map[]);
    var name := s.GetSelectedAutonName();
    assert name == Some(NO_AUTON_TEXT);
    var ok := s.IsAutonSelected();
    assert !ok;
    var o := s.RunSelectedAuton();
    assert o == NotSelected && s.ranLog == [];
  }

  method PressAndRun()
  {
    var registry := new Registry();
    registry.Register("Left", true);
    registry.Register("Right", true);
    var s := new Selector(registry, map[]);
    PressThenRun(registry.entries, 1);
    s.HandleGridPress(1, true);
    assert s.selected == Some("Right");
    var o := s.RunSelectedAuton();
    assert o == Ran(1) && s.ranLog == [1];
  }

  method LateRegistration()
  {
    var registry := new Registry();
    registry.Register("Left", true);
    var s := new Selector(registry, map[]);
    registry.Register("Late", false);
    assert s.Valid();
    assert "Left"[1] != "Late"[1];
    assert registry.entries[1..] == [Auton("Late", false)];
    assert FindByName(registry.entries, "Late") == Some(1);
    var o := s.RunAuton("Late");
    assert o == NullCall(1) && s.ranLog == [];
  }

  lemma SavedRight(storage: Storage, reg: seq<Auton>)
    requires storage == map[AUTON_FILE_PATH := "Right\n"]
    requires reg == [Auton("Left", true), Auton("Right", true)]
    ensures SavedAuton(storage, reg) == Some("Right")
  {
    LineOfTerminated("Right", "");
    assert "Right" + "\n" + "" == "Right\n";
    assert "Left"[0] != "Right"[0];
    assert reg[1..] == [Auton("Right", true)];
    assert LineOf(storage[AUTON_FILE_PATH]) == "Right";
    assert FirstLine(storage[AUTON_FILE_PATH]) == Some("Right");
    assert FindByName(reg[1..], "Right") == Some(0);
    assert FindByName(reg, "Right") == Some(1);
  }

  /** After a power cycle the saved "Right" comes back, and a press in between is not remembered. */
  method PowerCycle()
  {
    var registry := new Registry();
    registry.Register("Left", true);
    registry.Register("Right", true);
    var storage := map[AUTON_FILE_PATH := "Right\n"];
    SavedRight(storage, registry.entries);
    var s := new Selector(registry, storage);
    assert s.selected == Some("Right");
    PressThenRun(registry.entries, 0);
    s.HandleGridPress(0, true);
    assert s.selected == Some("Left");
    SaveLeavesRestoreUnchanged(storage, "Left", true, registry.entries);
    var again := new Selector(registry, s.files);
    assert again.selected == Some("Right");
  }
}
