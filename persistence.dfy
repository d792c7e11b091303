/**
 * Saving and restoring the last selected auton. The SD card is a map from
 * path to file contents; a path that is absent is a file that cannot be
 * opened for reading.
 */
module Persistence {
  import opened Optional
  import opened Autons

  /** Where the selector looks for the last selection. */
  const AUTON_FILE_PATH: string := "/usd/LastSelectedAuton.txt"

  type Storage = map<string, string>

  /** The characters of `s` up to (not including) its first newline. */
  function LineOf(s: string): (line: string)
    ensures |line| <= |s| && line == s[..|line|]
    ensures '\n' !in line
    ensures |line| == |s| || s[|line|] == '\n'
  {
    if s == [] || s[0] == '\n' then [] else [s[0]] + LineOf(s[1..])
  }

  /** What std::getline yields on a freshly opened file: nothing for an empty file, else its first line. */
  function FirstLine(contents: string): Option<string>
  {
    if contents == [] then None else Some(LineOf(contents))
  }

  /** The name read_saved_auton returns: the first registry name equal to the saved first line. */
  function SavedAuton(files: Storage, reg: seq<Auton>): Option<string>
  {
    if AUTON_FILE_PATH !in files then None
    else match FirstLine(files[AUTON_FILE_PATH])
      case None => None
      case Some(line) =>
        match FindByName(reg, line)
        case None => None
        case Some(i) => Some(reg[i].name)
  }

  method ReadSavedAuton(files: Storage, reg: seq<Auton>) returns (saved: Option<string>)
    ensures saved == SavedAuton(files, reg)
  {
    if AUTON_FILE_PATH !in files {
      return None;
    }
    var line := FirstLine(files[AUTON_FILE_PATH]);
    if line.None? {
      return None;
    }
    var k := LookUp(reg, line.value);
    if k.None? {
      return None;
    }
    return Some(reg[k.value].name);
  }

  /**
   * A restore yields a name exactly when the saved file exists, is not
   * empty, and its first line is the name of some registry entry; the name
   * is then that line. Whether the entry has an action plays no part.
   */
  lemma RestoreOutcome(files: Storage, reg: seq<Auton>)
    ensures SavedAuton(files, reg).Some? <==>
      AUTON_FILE_PATH in files && files[AUTON_FILE_PATH] != [] &&
      exists i :: 0 <= i < |reg| && reg[i].name == LineOf(files[AUTON_FILE_PATH])
    ensures SavedAuton(files, reg).Some? ==>
      SavedAuton(files, reg).value == LineOf(files[AUTON_FILE_PATH]) &&
      exists i :: 0 <= i < |reg| && reg[i].name == SavedAuton(files, reg).value
  {
    if AUTON_FILE_PATH in files && files[AUTON_FILE_PATH] != [] {
      var line := LineOf(files[AUTON_FILE_PATH]);
      var k := FindByName(reg, line);
      if k.Some? {
        assert reg[k.value].name == line;
      }
    }
  }

  /** Restoring looks only at names: clearing or setting actions changes nothing. */
  lemma {:induction false} FindByNameIgnoresActions(reg: seq<Auton>, reg': seq<Auton>, name: string)
    requires |reg| == |reg'|
    requires forall i :: 0 <= i < |reg| ==> reg[i].name == reg'[i].name
    ensures FindByName(reg, name) == FindByName(reg', name)
  {
    if reg != [] {
      FindByNameIgnoresActions(reg[1..], reg'[1..], name);
    }
  }

  lemma SavedAutonIgnoresActions(files: Storage, reg: seq<Auton>, reg': seq<Auton>)
    requires |reg| == |reg'|
    requires forall i :: 0 <= i < |reg| ==> reg[i].name == reg'[i].name
    ensures SavedAuton(files, reg) == SavedAuton(files, reg')
  {
    if AUTON_FILE_PATH in files && files[AUTON_FILE_PATH] != [] {
      FindByNameIgnoresActions(reg, reg', LineOf(files[AUTON_FILE_PATH]));
    }
  }

  /** std::ofstream to `path`, then `<< text`: the file now holds exactly `text`, unless it could not be opened. */
  function WriteFile(files: Storage, path: string, text: string, isOpen: bool): (w: Storage)
    ensures isOpen ==> path in w && w[path] == text
    ensures forall p :: p != path ==> (p in w <==> p in files)
    ensures forall p :: p in w && p != path ==> w[p] == files[p]
    ensures !isOpen ==> w == files
  {
    if isOpen then files[path := text] else files
  }

  /** write_saved_auton: the name goes to a file called "No Auton", not to AUTON_FILE_PATH. */
  function WriteSavedAuton(files: Storage, text: string, isOpen: bool): (w: Storage)
    ensures isOpen ==> NO_AUTON_TEXT in w && w[NO_AUTON_TEXT] == text
    ensures AUTON_FILE_PATH in w <==> AUTON_FILE_PATH in files
    ensures AUTON_FILE_PATH in files ==> w[AUTON_FILE_PATH] == files[AUTON_FILE_PATH]
    ensures forall p :: p != NO_AUTON_TEXT ==> (p in w <==> p in files) && (p in files ==> w[p] == files[p])
    ensures !isOpen ==> w == files
  {
    assert AUTON_FILE_PATH[0] != NO_AUTON_TEXT[0];
    WriteFile(files, NO_AUTON_TEXT, text, isOpen)
  }

  /** Saving never touches the file a restore reads, so no save is ever seen by a later restore. */
  lemma SaveLeavesRestoreUnchanged(files: Storage, text: string, isOpen: bool, reg: seq<Auton>)
    ensures SavedAuton(WriteSavedAuton(files, text, isOpen), reg) == SavedAuton(files, reg)
  {
  }

  /** A single line without a newline reads back as itself. */
  lemma {:induction false} LineOfPlain(s: string)
    requires '\n' !in s
    ensures LineOf(s) == s
  {
    if s != [] {
      LineOfPlain(s[1..]);
    }
  }

  /** A name followed by a newline and anything else also reads back as the name. */
  lemma {:induction false} LineOfTerminated(name: string, rest: string)
    requires '\n' !in name
    ensures LineOf(name + "\n" + rest) == name
  {
    if name != [] {
      assert (name + "\n" + rest)[1..] == name[1..] + "\n" + rest;
      LineOfTerminated(name[1..], rest);
    } else {
      assert name + "\n" + rest == ['\n'] + rest;
    }
  }

  /**
   * Had the name been written to AUTON_FILE_PATH, a restore would return
   * it: any non-empty registry name without a newline survives the round trip.
   */
  lemma RestoreAfterWriteToSavedPath(files: Storage, reg: seq<Auton>, i: nat)
    requires i < |reg| && reg[i].name != [] && '\n' !in reg[i].name
    ensures SavedAuton(WriteFile(files, AUTON_FILE_PATH, reg[i].name, true), reg) == Some(reg[i].name)
  {
    LineOfPlain(reg[i].name);
  }
}
