/** `src/modules/myrient.py`: the platforms the Myrient listing knows, the
    string-to-platform routing, and the static table of listing URLs. */
module Myrient {

  import opened Errors
  import opened Text

  datatype MyrientConsole = Unknown | PlayStation3 | GameCube

  /** The enum member's `value`. */
  function Value(c: MyrientConsole): string {
    match c
    case Unknown => "unknown"
    case PlayStation3 => "playstation_3"
    case GameCube => "gamecube"
  }

  /** The enum member as an f-string prints it. */
  function Display(c: MyrientConsole): string {
    "MyrientConsole." + Value(c)
  }

  predicate NamesPlayStation3(n: string) {
    Contains("playstation_3", n) || Contains("playstation 3", n)
  }

  /** `MyrientConsole.from_string(console)`: after lower-casing and
      trimming, the input is checked for being a substring of "unknown",
      then of "playstation_3" or "playstation 3", then of "gamecube"; the
      first branch that holds decides. */
  function FromString(console: string): (r: Result<MyrientConsole>)
    ensures r.Ok? <==>
      Contains("unknown", Normalize(console)) || NamesPlayStation3(Normalize(console))
      || Contains("gamecube", Normalize(console))
    ensures r == Ok(Unknown) <==> Contains("unknown", Normalize(console))
    ensures r == Ok(PlayStation3) <==>
      !Contains("unknown", Normalize(console)) && NamesPlayStation3(Normalize(console))
    ensures r == Ok(GameCube) <==>
      !Contains("unknown", Normalize(console)) && !NamesPlayStation3(Normalize(console))
      && Contains("gamecube", Normalize(console))
    ensures r.Err? ==>
      r.error == NotImplementedError("Unsupported console " + Normalize(console) + ".")
  {
    var c := Normalize(console);
    if Contains("unknown", c) then Ok(Unknown)
    else if NamesPlayStation3(c) then Ok(PlayStation3)
    else if Contains("gamecube", c) then Ok(GameCube)
    else Err(NotImplementedError("Unsupported console " + c + "."))
  }

  /** A substring of "gamecube" whose first character is in neither
      PlayStation spelling nor in "unknown" passes only the last test. */
  lemma GameCubeBranch(n: string, at: int)
    requires OccursAt("gamecube", n, at)
    requires |n| > 0 && n[0] !in "unknown" && n[0] !in "playstation_3" && n[0] !in "playstation 3"
    ensures !Contains("unknown", n) && !NamesPlayStation3(n) && Contains("gamecube", n)
  {
    NotContainsWithoutHead("unknown", n);
    NotContainsWithoutHead("playstation_3", n);
    NotContainsWithoutHead("playstation 3", n);
    ContainsAt("gamecube", n, at);
  }

  /** A substring of "playstation_3" whose first character is not in
      "unknown" fails the first test and passes the second. */
  lemma PlayStation3Branch(n: string, at: int)
    requires OccursAt("playstation_3", n, at)
    requires |n| > 0 && n[0] !in "unknown"
    ensures !Contains("unknown", n) && NamesPlayStation3(n)
  {
    NotContainsWithoutHead("unknown", n);
    ContainsAt("playstation_3", n, at);
  }

  /** A normal form that is a substring of "gamecube" but of neither
      PlayStation spelling nor of "unknown" routes to GameCube. */
  lemma RoutesToGameCube(console: string, n: string, at: int)
    requires Normalize(console) == n && OccursAt("gamecube", n, at)
    requires |n| > 0 && n[0] !in "unknown" && n[0] !in "playstation_3" && n[0] !in "playstation 3"
    ensures FromString(console) == Ok(GameCube)
  {
    GameCubeBranch(n, at);
  }

  /** A normal form that is a substring of "playstation_3" but not of
      "unknown" routes to PlayStation 3, whatever else it is part of. */
  lemma RoutesToPlayStation3(console: string, n: string, at: int)
    requires Normalize(console) == n && OccursAt("playstation_3", n, at)
    requires |n| > 0 && n[0] !in "unknown"
    ensures FromString(console) == Ok(PlayStation3)
  {
    PlayStation3Branch(n, at);
  }

  /** A substring of "unknown" routes to Unknown, ahead of every other
      branch. */
  lemma RoutesToUnknown(console: string, n: string, at: int)
    requires Normalize(console) == n && OccursAt("unknown", n, at)
    ensures FromString(console) == Ok(Unknown)
  {
    ContainsAt("unknown", n, at);
  }

  lemma ValueIsNormal(c: MyrientConsole)
    ensures Normalize(Value(c)) == Value(c)
  {
    match c
    case Unknown => NormalizeFixed("unknown");
    case PlayStation3 => NormalizeFixed("playstation_3");
    case GameCube => NormalizeFixed("gamecube");
  }

  lemma RoutesBack(console: string, c: MyrientConsole)
    requires Normalize(console) == Value(c)
    ensures FromString(console) == Ok(c)
  {
    match c
    case Unknown => UnknownRoutesBack(console);
    case PlayStation3 => PlayStation3RoutesBack(console);
    case GameCube => GameCubeRoutesBack(console);
  }

  lemma UnknownRoutesBack(console: string)
    requires Normalize(console) == "unknown"
    ensures FromString(console) == Ok(Unknown)
  {
    RoutesToUnknown(console, "unknown", 0);
  }

  lemma PlayStation3RoutesBack(console: string)
    requires Normalize(console) == "playstation_3"
    ensures FromString(console) == Ok(PlayStation3)
  {
    WorkedSpellings();
    RoutesToPlayStation3(console, "playstation_3", 0);
  }

  lemma GameCubeRoutesBack(console: string)
    requires Normalize(console) == "gamecube"
    ensures FromString(console) == Ok(GameCube)
  {
    WorkedSpellings();
    RoutesToGameCube(console, "gamecube", 0);
  }

  /** Each member's own value routes back to it. */
  lemma FromStringValue(c: MyrientConsole)
    ensures FromString(Value(c)) == Ok(c)
  {
    ValueIsNormal(c);
    RoutesBack(Value(c), c);
  }

  /** Worked instances of the routing lemmas, one spelling each. The empty
      string and "own" are part of "unknown"; so is "n", which is also part
      of "playstation", yet routes to Unknown because that branch is tried
      first. */
  lemma EmptyRoutesToUnknown(console: string)
    requires Normalize(console) == ""
    ensures FromString(console) == Ok(Unknown)
  {
    RoutesToUnknown(console, "", 0);
  }

  lemma NRoutesToUnknown(console: string)
    requires Normalize(console) == "n"
    ensures FromString(console) == Ok(Unknown)
  {
    WorkedSpellings();
    RoutesToUnknown(console, "n", 1);
  }

  lemma OwnRoutesToUnknown(console: string)
    requires Normalize(console) == "own"
    ensures FromString(console) == Ok(Unknown)
  {
    WorkedSpellings();
    RoutesToUnknown(console, "own", 4);
  }

  /** Where each worked spelling sits inside its literal, and which
      tested literals its first character is missing from. */
  lemma WorkedSpellings()
    ensures OccursAt("playstation_3", "playstation", 0) && OccursAt("playstation_3", "station", 4)
      && OccursAt("playstation_3", "a", 2) && OccursAt("gamecube", "cube", 4) && OccursAt("gamecube", "game", 0)
    ensures OccursAt("unknown", "own", 4) && OccursAt("unknown", "n", 1)
    ensures 'p' !in "unknown" && 's' !in "unknown" && 'a' !in "unknown"
    ensures 'c' !in "unknown" && 'c' !in "playstation_3" && 'c' !in "playstation 3"
    ensures 'g' !in "unknown" && 'g' !in "playstation_3" && 'g' !in "playstation 3"
  {
  }

  /** "playstation" and "station" are part of "playstation_3". */
  lemma PlaystationRoutesToPlayStation3(console: string)
    requires Normalize(console) == "playstation"
    ensures FromString(console) == Ok(PlayStation3)
  {
    WorkedSpellings();
    RoutesToPlayStation3(console, "playstation", 0);
  }

  lemma StationRoutesToPlayStation3(console: string)
    requires Normalize(console) == "station"
    ensures FromString(console) == Ok(PlayStation3)
  {
    WorkedSpellings();
    RoutesToPlayStation3(console, "station", 4);
  }

  /** "a" is part of "gamecube" too, but the PlayStation 3 branch comes
      first. */
  lemma ARoutesToPlayStation3(console: string)
    requires Normalize(console) == "a"
    ensures FromString(console) == Ok(PlayStation3)
  {
    WorkedSpellings();
    RoutesToPlayStation3(console, "a", 2);
  }

  lemma CubeRoutesToGameCube(console: string)
    requires Normalize(console) == "cube"
    ensures FromString(console) == Ok(GameCube)
  {
    WorkedSpellings();
    RoutesToGameCube(console, "cube", 4);
  }

  lemma GameRoutesToGameCube(console: string)
    requires Normalize(console) == "game"
    ensures FromString(console) == Ok(GameCube)
  {
    WorkedSpellings();
    RoutesToGameCube(console, "game", 0);
  }

  /** A name that is part of none of the literals is rejected. */
  lemma RejectsOtherNames(console: string, n: string)
    requires Normalize(console) == n
    requires |n| > 0 && n[0] !in "unknown" && n[0] !in "playstation_3"
      && n[0] !in "playstation 3" && n[0] !in "gamecube"
    ensures FromString(console) == Err(NotImplementedError("Unsupported console " + n + "."))
  {
    NotContainsWithoutHead("unknown", n);
    NotContainsWithoutHead("playstation_3", n);
    NotContainsWithoutHead("playstation 3", n);
    NotContainsWithoutHead("gamecube", n);
  }

  /** One row of `MYRENT_DOMAINS`. */
  datatype MyrientDomain = MyrientDomain(key: MyrientConsole, value: string)

  const PlayStation3Content := "https://myrient.erista.me/files/No-Intro/Sony%20-%20PlayStation%203%20(PSN)%20(Content)/"
  const PlayStation3Updates := "https://myrient.erista.me/files/No-Intro/Sony%20-%20PlayStation%203%20(PSN)%20(Updates)/"
  const GameCubeNKit := "https://myrient.erista.me/files/Redump/Nintendo%20-%20GameCube%20-%20NKit%20RVZ%20[zstd-19-128k]/"

  const MyrentDomains: seq<MyrientDomain> := [
    MyrientDomain(PlayStation3, PlayStation3Content),
    MyrientDomain(PlayStation3, PlayStation3Updates),
    MyrientDomain(GameCube, GameCubeNKit)
  ]

  /** The comprehension of `MyrientConsole.domains` over `table`; it calls
      `from_string` again for every row, so a rejected name raises at the
      first row. */
  function DomainsIn(table: seq<MyrientDomain>, console: string): (r: Result<seq<string>>)
    ensures r.Err? <==> |table| > 0 && FromString(console).Err?
    ensures r.Err? ==> r.error == FromString(console).error
    ensures r.Ok? ==> |r.value| <= |table|
    ensures r.Ok? && FromString(console).Ok? ==> forall v :: v in r.value <==>
      exists i :: 0 <= i < |table| && table[i].key == FromString(console).value && table[i].value == v
  {
    if |table| == 0 then Ok([])
    else
      var c :- FromString(console);
      var rest := DomainsIn(table[1..], console);
      var head := if table[0].key == c then [table[0].value] else [];
      DomainsShift(table, c, head, rest.value);
      Ok(head + rest.value)
  }

  /** The membership statement of `DomainsIn` carries over from the tail of
      the table to the whole table. */
  lemma DomainsShift(table: seq<MyrientDomain>, c: MyrientConsole, head: seq<string>, rest: seq<string>)
    requires |table| > 0
    requires head == if table[0].key == c then [table[0].value] else []
    requires forall v :: v in rest <==>
      exists i :: 0 <= i < |table[1..]| && table[1..][i].key == c && table[1..][i].value == v
    ensures forall v :: v in head + rest <==>
      exists i :: 0 <= i < |table| && table[i].key == c && table[i].value == v
  {
    forall v | v in rest
      ensures exists i :: 0 <= i < |table| && table[i].key == c && table[i].value == v
    {
      var i :| 0 <= i < |table[1..]| && table[1..][i].key == c && table[1..][i].value == v;
      assert table[i + 1] == table[1..][i];
    }
    forall i | 0 <= i < |table| && table[i].key == c
      ensures table[i].value in head + rest
    {
      if i > 0 {
        assert table[1..][i - 1] == table[i];
      }
    }
  }

  /** `MyrientConsole.domains(console)` */
  function Domains(console: string): (r: Result<seq<string>>)
    ensures r.Err? <==> FromString(console).Err?
    ensures r.Err? ==> r.error == FromString(console).error
    ensures FromString(console).Ok? ==> r == Ok(UrlsFor(MyrentDomains, FromString(console).value))
  {
    var r := DomainsIn(MyrentDomains, console);
    if FromString(console).Ok? then
      DomainsInIsFilter(MyrentDomains, console, FromString(console).value);
      r
    else r
  }

  /** The URLs of the rows of `table` whose key is `c`, in table order. */
  function UrlsFor(table: seq<MyrientDomain>, c: MyrientConsole): seq<string> {
    if |table| == 0 then []
    else (if table[0].key == c then [table[0].value] else []) + UrlsFor(table[1..], c)
  }

  /** Once the name is accepted, `domains` is the plain key filter. */
  lemma {:induction false} DomainsInIsFilter(table: seq<MyrientDomain>, console: string, c: MyrientConsole)
    requires FromString(console) == Ok(c)
    ensures DomainsIn(table, console) == Ok(UrlsFor(table, c))
    decreases |table|
  {
    if |table| > 0 {
      DomainsInIsFilter(table[1..], console, c);
    }
  }

  lemma UrlsForTable(c: MyrientConsole)
    ensures UrlsFor(MyrentDomains, c) ==
      (if c == PlayStation3 then [PlayStation3Content, PlayStation3Updates] else [])
      + (if c == GameCube then [GameCubeNKit] else [])
  {
    var d0 := MyrientDomain(PlayStation3, PlayStation3Content);
    var d1 := MyrientDomain(PlayStation3, PlayStation3Updates);
    var d2 := MyrientDomain(GameCube, GameCubeNKit);
    var t := [d0, d1, d2];
    assert t[1..] == [d1, d2];
    assert t[1..][1..] == [d2];
    assert t[1..][1..][1..] == [];
    assert MyrentDomains == t;
    assert [d2][1..] == [];
    assert [d1, d2][1..] == [d2];
    assert UrlsFor([], c) == [];
    var u2 := UrlsFor([d2], c);
    assert u2 == (if c == GameCube then [GameCubeNKit] else []) + [];
    var u1 := UrlsFor([d1, d2], c);
    assert u1 == (if c == PlayStation3 then [PlayStation3Updates] else []) + u2;
    assert UrlsFor(t, c) == (if c == PlayStation3 then [PlayStation3Content] else []) + u1;
    match c
    case PlayStation3 =>
      assert [PlayStation3Content] + ([PlayStation3Updates] + ([] + []))
          == [PlayStation3Content, PlayStation3Updates] + [];
    case GameCube =>
    case Unknown =>
  }

  /** With the static table, every spelling of a platform's own value
      yields its URLs in table order: two for PlayStation 3, one for
      GameCube, none for Unknown. */
  lemma DomainsOfEachPlatform(console: string, c: MyrientConsole)
    requires Normalize(console) == Value(c)
    ensures c == PlayStation3 ==> Domains(console) == Ok([PlayStation3Content, PlayStation3Updates])
    ensures c == GameCube ==> Domains(console) == Ok([GameCubeNKit])
    ensures c == Unknown ==> Domains(console) == Ok([])
  {
    RoutesBack(console, c);
    DomainsInIsFilter(MyrentDomains, console, c);
    UrlsForTable(c);
    assert [PlayStation3Content, PlayStation3Updates] + [] == [PlayStation3Content, PlayStation3Updates];
    assert [] + [GameCubeNKit] == [GameCubeNKit];
  }
}
