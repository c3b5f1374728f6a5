/** `ConsoleType` and `ConsoleType.from_string`, declared identically in
    `core/core.py` and `src/modules/core.py`. */
module ConsoleTypes {

  import opened Errors
  import opened Text

  datatype ConsoleType =
    | Unknown
    | PlayStation1
    | PlayStation2
    | PlayStation3
    | PlayStation4
    | PlayStation5
    | GameCube
    | GameBoyAdvanced

  /** The enum member's `value`. */
  function Ordinal(t: ConsoleType): int {
    match t
    case Unknown => 1
    case PlayStation1 => 2
    case PlayStation2 => 3
    case PlayStation3 => 4
    case PlayStation4 => 5
    case PlayStation5 => 6
    case GameCube => 7
    case GameBoyAdvanced => 8
  }

  /** Comparing `key.value`s, as the registry does, is comparing the members. */
  lemma OrdinalInjective(a: ConsoleType, b: ConsoleType)
    ensures Ordinal(a) == Ordinal(b) <==> a == b
  {
  }

  /** The member's name, as `str(member)` prints it after `ConsoleType.`. */
  function Name(t: ConsoleType): string {
    match t
    case Unknown => "UNKNOWN"
    case PlayStation1 => "PLAYSTATION_1"
    case PlayStation2 => "PLAYSTATION_2"
    case PlayStation3 => "PLAYSTATION_3"
    case PlayStation4 => "PLAYSTATION_4"
    case PlayStation5 => "PLAYSTATION_5"
    case GameCube => "GAMECUBE"
    case GameBoyAdvanced => "GAMEBOY_ADVANCED"
  }

  /** `ConsoleType.from_string(console)`: exact match against the two
      PlayStation 1 spellings, then substring containment in "gamecube". */
  function FromString(console: string): (r: Result<ConsoleType>)
    ensures r.Ok? ==> r.value == PlayStation1 || r.value == GameCube
    ensures r == Ok(PlayStation1) <==>
      Normalize(console) == "playstation_1" || Normalize(console) == "playstation 1"
    ensures r == Ok(GameCube) <==> Contains("gamecube", Normalize(console))
    ensures r.Err? ==>
      r.error == NotImplementedError("Unsupported console " + Normalize(console) + ".")
  {
    var c := Normalize(console);
    PlayStation1NotInGameCube();
    if c in ["playstation_1", "playstation 1"] then
      Ok(PlayStation1)
    else if Contains("gamecube", c) then
      Ok(GameCube)
    else
      Err(NotImplementedError("Unsupported console " + c + "."))
  }

  lemma PlayStation1NotInGameCube()
    ensures !Contains("gamecube", "playstation_1")
    ensures !Contains("gamecube", "playstation 1")
  {
    NotContainsWithoutHead("gamecube", "playstation_1");
    NotContainsWithoutHead("gamecube", "playstation 1");
  }

  /** The exact spellings the source lists. */
  lemma FromStringExact()
    ensures FromString("playstation_1") == Ok(PlayStation1)
    ensures FromString("gamecube") == Ok(GameCube)
  {
    NormalizeFixed("playstation_1");
    NormalizeFixed("gamecube");
    ContainsSelf("gamecube");
  }

  /** Substring containment lets partial names, and the empty string,
      through to GAMECUBE. */
  lemma FromStringPartial()
    ensures FromString("cube") == Ok(GameCube)
    ensures FromString("") == Ok(GameCube)
  {
    NormalizeFixed("cube");
    ContainsAt("gamecube", "cube", 4);
    NormalizeFixed("");
    ContainsEmpty("gamecube");
  }

  lemma RejectsNormalForm(console: string, other: string)
    requires Normalize(console) == other
    requires |other| > 0 && other[0] !in "gamecube"
    requires other != "playstation_1" && other != "playstation 1"
    ensures FromString(console).Err?
  {
    NotContainsWithoutHead("gamecube", other);
  }

  /** The other PlayStation generations are not recognised, whatever
      their case and padding. */
  lemma PlayStation2Rejected(console: string)
    requires Normalize(console) == "playstation_2"
    ensures FromString(console).Err?
  {
    assert "playstation_2"[12] != "playstation_1"[12];
    assert "playstation_2"[11] != "playstation 1"[11];
    RejectsNormalForm(console, "playstation_2");
  }

  lemma PlayStation3Rejected(console: string)
    requires Normalize(console) == "playstation 3"
    ensures FromString(console).Err?
  {
    assert "playstation 3"[11] != "playstation_1"[11];
    assert "playstation 3"[12] != "playstation 1"[12];
    RejectsNormalForm(console, "playstation 3");
  }

  /** Upper case and surrounding whitespace make no difference. */
  lemma {:induction false} FromStringIgnoresCaseAndPadding(console: string)
    ensures FromString(Lower(console)) == FromString(console)
    ensures FromString(" " + console) == FromString(console)
    ensures FromString(console + " ") == FromString(console)
  {
    NormalizeIgnoresCase(console);
    NormalizeIgnoresPadding(console);
  }
}
