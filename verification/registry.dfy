/** The `Console` source registry and `ConsoleFactory` of `core/core.py`
    (repeated, without `has_multiple_sources`, in `src/modules/core.py`).

    A console's `sources` list is modelled as a value: every operation takes
    the list and returns the new list, or the error it raises.
 */
module Registry {

  import opened Errors
  import opened ConsoleTypes

  /** A registration point: the platform it serves and its base URL. */
  datatype Source = Source(key: ConsoleType, value: string)

  datatype Console = Console(consoleType: ConsoleType, sources: seq<Source>)

  /** The registry compares `source.key.value == key.value`. */
  predicate KeyMatches(s: Source, key: ConsoleType) {
    Ordinal(s.key) == Ordinal(key)
  }

  /** At most one source per key: what `add_source` guards. */
  predicate UniqueKeys(sources: seq<Source>) {
    forall i, j :: 0 <= i < j < |sources| ==> sources[i].key != sources[j].key
  }

  predicate NoDuplicates(sources: seq<Source>) {
    forall i, j :: 0 <= i < j < |sources| ==> sources[i] != sources[j]
  }

  /** The position of the first source registered under `key`, or
      `|sources|` when there is none. */
  function IndexOfKey(sources: seq<Source>, key: ConsoleType): (i: nat)
    ensures i <= |sources|
    ensures forall j :: 0 <= j < i ==> !KeyMatches(sources[j], key)
    ensures i < |sources| ==> KeyMatches(sources[i], key)
  {
    if |sources| == 0 then 0
    else if KeyMatches(sources[0], key) then 0
    else 1 + IndexOfKey(sources[1..], key)
  }

  /** `has_multiple_sources` */
  predicate HasMultipleSources(sources: seq<Source>) {
    |sources| > 1
  }

  /** A console that is not reported as having several sources answers
      every key with at most one URL, and a successful
      registration on a non-empty console makes it report several. */
  lemma {:induction false} HasMultipleSourcesMeaning(sources: seq<Source>, key: ConsoleType, source: Source)
    ensures !HasMultipleSources(sources) ==> |GetSourcesByKey(sources, key)| <= 1
    ensures |sources| > 0 && AddSource(sources, source).Ok? ==>
      HasMultipleSources(AddSource(sources, source).value)
  {
  }

  /** `get_source_by_key_or_default`: the first source registered under
      `key`, scanning in list order, or none. */
  function GetSourceByKeyOrDefault(sources: seq<Source>, key: ConsoleType): (r: Option<Source>)
    ensures r.None? <==> forall j :: 0 <= j < |sources| ==> !KeyMatches(sources[j], key)
    ensures r.Some? ==>
      exists i :: 0 <= i < |sources| && sources[i] == r.value && KeyMatches(sources[i], key)
        && forall j :: 0 <= j < i ==> !KeyMatches(sources[j], key)
  {
    if |sources| == 0 then None
    else if KeyMatches(sources[0], key) then Some(sources[0])
    else
      var r := GetSourceByKeyOrDefault(sources[1..], key);
      assert r.Some? ==>
          exists i :: 0 < i < |sources| && sources[i] == r.value && KeyMatches(sources[i], key)
            && forall j :: 0 <= j < i ==> !KeyMatches(sources[j], key) by {
        if r.Some? {
          var i :| 0 <= i < |sources| - 1 && sources[1..][i] == r.value && KeyMatches(sources[1..][i], key)
            && forall j :: 0 <= j < i ==> !KeyMatches(sources[1..][j], key);
          assert sources[i + 1] == r.value;
          assert forall j :: 0 <= j < i + 1 ==> !KeyMatches(sources[j], key) by {
            forall j | 0 <= j < i + 1
              ensures !KeyMatches(sources[j], key)
            {
              if j > 0 {
                assert sources[j] == sources[1..][j - 1];
              }
            }
          }
        }
      }
      r
  }

  /** The source found by key sits at the first position registered under
      that key. */
  lemma GetSourceAtIndexOfKey(sources: seq<Source>, key: ConsoleType)
    ensures var i := IndexOfKey(sources, key);
      GetSourceByKeyOrDefault(sources, key) == if i < |sources| then Some(sources[i]) else None
  {
    var i := IndexOfKey(sources, key);
    var r := GetSourceByKeyOrDefault(sources, key);
    if r.Some? {
      var i' :| 0 <= i' < |sources| && sources[i'] == r.value && KeyMatches(sources[i'], key)
        && forall j :: 0 <= j < i' ==> !KeyMatches(sources[j], key);
      assert i' == i;
    }
  }

  /** `get_sources_by_key`: the URLs of the sources registered under `key`,
      in list order. */
  function GetSourcesByKey(sources: seq<Source>, key: ConsoleType): (r: seq<string>)
    ensures |r| <= |sources|
    ensures forall v :: v in r <==>
      exists i :: 0 <= i < |sources| && KeyMatches(sources[i], key) && sources[i].value == v
  {
    if |sources| == 0 then []
    else
      var rest := GetSourcesByKey(sources[1..], key);
      assert forall i :: 0 < i < |sources| ==> sources[i] == sources[1..][i - 1];
      (if KeyMatches(sources[0], key) then [sources[0].value] else []) + rest
  }

  /** Looking up in a concatenation concatenates the lookups: the answer
      keeps list order. */
  lemma {:induction false} GetSourcesByKeyAppend(a: seq<Source>, b: seq<Source>, key: ConsoleType)
    ensures GetSourcesByKey(a + b, key) == GetSourcesByKey(a, key) + GetSourcesByKey(b, key)
    decreases |a|
  {
    if |a| > 0 {
      assert (a + b)[1..] == a[1..] + b;
      GetSourcesByKeyAppend(a[1..], b, key);
    } else {
      assert a + b == b;
    }
  }

  /** The first URL by key is the URL of the source found by key. */
  lemma {:induction false} GetSourcesByKeyHead(sources: seq<Source>, key: ConsoleType)
    ensures GetSourcesByKey(sources, key) != [] <==> GetSourceByKeyOrDefault(sources, key).Some?
    ensures GetSourcesByKey(sources, key) != [] ==>
      GetSourcesByKey(sources, key)[0] == GetSourceByKeyOrDefault(sources, key).value.value
    decreases |sources|
  {
    if |sources| > 0 && !KeyMatches(sources[0], key) {
      GetSourcesByKeyHead(sources[1..], key);
    }
  }

  /** Under the one-per-key invariant a key yields at most one URL. */
  lemma {:induction false} UniqueKeysGiveOneSource(sources: seq<Source>, key: ConsoleType)
    requires UniqueKeys(sources)
    ensures |GetSourcesByKey(sources, key)| <= 1
    decreases |sources|
  {
    if |sources| > 0 {
      var tail := sources[1..];
      assert UniqueKeys(tail) by {
        assert forall i :: 0 <= i < |tail| ==> tail[i] == sources[i + 1];
      }
      UniqueKeysGiveOneSource(tail, key);
      if KeyMatches(sources[0], key) {
        forall i | 0 <= i < |tail|
          ensures !KeyMatches(tail[i], key)
        {
          assert tail[i] == sources[i + 1];
          OrdinalInjective(tail[i].key, sources[0].key);
        }
        assert GetSourcesByKey(tail, key) == [] by {
          GetSourcesByKeyHead(tail, key);
        }
      }
    }
  }

  const AlreadyExists := "Entity already exists."

  /** `add_source`: rejects a source whose key is already registered,
      whatever its URL; otherwise appends it. */
  function AddSource(sources: seq<Source>, source: Source): (r: Result<seq<Source>>)
    ensures r.Err? <==> exists i :: 0 <= i < |sources| && sources[i].key == source.key
    ensures r.Err? ==> r.error == RuntimeError(AlreadyExists)
    ensures r.Ok? ==>
      |r.value| == |sources| + 1 && r.value[..|sources|] == sources && r.value[|sources|] == source
  {
    assert forall i :: 0 <= i < |sources| ==>
      (KeyMatches(sources[i], source.key) <==> sources[i].key == source.key) by {
      forall i | 0 <= i < |sources| {
        OrdinalInjective(sources[i].key, source.key);
      }
    }
    match GetSourceByKeyOrDefault(sources, source.key)
    case Some(_) => Err(RuntimeError(AlreadyExists))
    case None => Ok(sources + [source])
  }

  /** `add_source` keeps the one-per-key invariant. */
  lemma AddSourcePreservesUniqueKeys(sources: seq<Source>, source: Source)
    requires UniqueKeys(sources)
    requires AddSource(sources, source).Ok?
    ensures UniqueKeys(AddSource(sources, source).value)
  {
    var r := AddSource(sources, source).value;
    forall i, j | 0 <= i < j < |r|
      ensures r[i].key != r[j].key
    {
      assert r[i] == sources[i];
      if j < |sources| {
        assert r[j] == sources[j];
      }
    }
  }

  /** Registering the same platform twice fails the second time, even with
      another URL. */
  lemma AddSourceTwiceFails(sources: seq<Source>, first: Source, second: Source)
    requires AddSource(sources, first).Ok?
    requires second.key == first.key
    ensures AddSource(AddSource(sources, first).value, second) == Err(RuntimeError(AlreadyExists))
  {
    var r := AddSource(sources, first).value;
    assert r[|sources|].key == second.key;
  }

  /** The list with only the first occurrence of each source kept. */
  function Dedup(s: seq<Source>): (r: seq<Source>)
    ensures NoDuplicates(r)
    ensures forall x :: x in r <==> x in s
    ensures |r| <= |s|
  {
    if |s| == 0 then []
    else
      var init := Dedup(s[..|s| - 1]);
      var last := s[|s| - 1];
      assert forall x :: x in s <==> x in s[..|s| - 1] || x == last by {
        assert s == s[..|s| - 1] + [last];
      }
      if last in init then init else init + [last]
  }

  /** `add_sources`: `list(set(sources + batch))`. The model fixes one order
      (first occurrences); the source's order is that of a Python set and is
      not specified. */
  function AddSources(sources: seq<Source>, batch: seq<Source>): (r: seq<Source>)
    ensures NoDuplicates(r)
    ensures forall x :: x in r <==> x in sources || x in batch
  {
    Dedup(sources + batch)
  }

  /** `add_sources` skips the key check: a batch can register a second URL
      under a key that already has one, breaking the one-per-key invariant. */
  lemma AddSourcesBypassesKeyCheck(sources: seq<Source>, extra: Source)
    requires UniqueKeys(sources)
    requires exists i :: 0 <= i < |sources| && sources[i].key == extra.key && sources[i] != extra
    ensures !UniqueKeys(AddSources(sources, [extra]))
    ensures AddSource(sources, extra).Err?
  {
    var i :| 0 <= i < |sources| && sources[i].key == extra.key && sources[i] != extra;
    var r := AddSources(sources, [extra]);
    assert sources[i] in r && extra in r;
    var a :| 0 <= a < |r| && r[a] == sources[i];
    var b :| 0 <= b < |r| && r[b] == extra;
    assert a != b && r[a].key == r[b].key;
  }

  /** `list.remove(x)`: deletes the first element equal to `x`. */
  function RemoveFirst(s: seq<Source>, x: Source): (r: seq<Source>)
    requires x in s
    ensures |r| == |s| - 1
  {
    if s[0] == x then s[1..] else [s[0]] + RemoveFirst(s[1..], x)
  }

  lemma {:induction false} RemoveFirstAt(s: seq<Source>, x: Source, i: nat)
    requires i < |s| && s[i] == x
    requires forall j :: 0 <= j < i ==> s[j] != x
    ensures RemoveFirst(s, x) == s[..i] + s[i + 1..]
    decreases i
  {
    if i > 0 {
      assert s[1..][i - 1] == x;
      RemoveFirstAt(s[1..], x, i - 1);
      assert s[1..][..i - 1] == s[1..i];
      assert s[1..][i..] == s[i + 1..];
      assert [s[0]] + s[1..i] == s[..i];
    }
  }

  /** `remove_source_by_key`: nothing happens when no source has the key;
      otherwise exactly the first source with the key is removed and the
      rest keep their order. */
  function RemoveSourceByKey(sources: seq<Source>, key: ConsoleType): (r: seq<Source>)
    ensures (forall j :: 0 <= j < |sources| ==> !KeyMatches(sources[j], key)) ==> r == sources
    ensures IndexOfKey(sources, key) < |sources| ==>
      r == sources[..IndexOfKey(sources, key)] + sources[IndexOfKey(sources, key) + 1..]
  {
    GetSourceAtIndexOfKey(sources, key);
    match GetSourceByKeyOrDefault(sources, key)
    case None => sources
    case Some(existing) =>
      var i := IndexOfKey(sources, key);
      assert forall j :: 0 <= j < i ==> sources[j] != existing;
      RemoveFirstAt(sources, existing, i);
      RemoveFirst(sources, existing)
  }

  /** Removing under the one-per-key invariant keeps it, and leaves no
      source with that key. */
  lemma RemoveSourceByKeyClearsKey(sources: seq<Source>, key: ConsoleType)
    requires UniqueKeys(sources)
    ensures UniqueKeys(RemoveSourceByKey(sources, key))
    ensures GetSourceByKeyOrDefault(RemoveSourceByKey(sources, key), key).None?
  {
    var i := IndexOfKey(sources, key);
    var r := RemoveSourceByKey(sources, key);
    if i < |sources| {
      DeletedAt(sources, i, r);
      DeletedKeepsUniqueKeys(sources, i, r);
      DeletedClearsKey(sources, key, i, r);
    }
  }

  /** Each position of a list with element `i` deleted holds the element
      from `OriginalIndex`. */
  lemma DeletedAt(sources: seq<Source>, i: nat, r: seq<Source>)
    requires i < |sources| && r == sources[..i] + sources[i + 1..]
    ensures |r| == |sources| - 1
    ensures forall k :: 0 <= k < |r| ==> r[k] == sources[OriginalIndex(k, i)]
  {
  }

  lemma DeletedKeepsUniqueKeys(sources: seq<Source>, i: nat, r: seq<Source>)
    requires UniqueKeys(sources) && i < |sources| && |r| == |sources| - 1
    requires forall k :: 0 <= k < |r| ==> r[k] == sources[OriginalIndex(k, i)]
    ensures UniqueKeys(r)
  {
    forall a, b | 0 <= a < b < |r|
      ensures r[a].key != r[b].key
    {
      assert OriginalIndex(a, i) < OriginalIndex(b, i);
    }
  }

  lemma DeletedClearsKey(sources: seq<Source>, key: ConsoleType, i: nat, r: seq<Source>)
    requires UniqueKeys(sources) && i == IndexOfKey(sources, key) && i < |sources|
    requires |r| == |sources| - 1
    requires forall k :: 0 <= k < |r| ==> r[k] == sources[OriginalIndex(k, i)]
    ensures GetSourceByKeyOrDefault(r, key).None?
  {
    forall k | 0 <= k < |r|
      ensures !KeyMatches(r[k], key)
    {
      if k >= i {
        assert r[k] == sources[k + 1];
        OrdinalInjective(sources[k + 1].key, sources[i].key);
      }
    }
  }


  /** The position in the original list of position `k` after the element
      at `i` was removed. */
  function OriginalIndex(k: nat, i: nat): (j: nat)
    ensures j == k || j == k + 1
    ensures k < i <==> j == k
  {
    if k < i then k else k + 1
  }

  /** Registering a source and then removing its key gives back the list
      that was there before. */
  lemma AddThenRemove(sources: seq<Source>, source: Source)
    requires AddSource(sources, source).Ok?
    ensures RemoveSourceByKey(AddSource(sources, source).value, source.key) == sources
  {
    var r := AddSource(sources, source).value;
    assert forall j :: 0 <= j < |sources| ==> r[j] == sources[j];
    forall j | 0 <= j < |sources|
      ensures !KeyMatches(r[j], source.key)
    {
      OrdinalInjective(sources[j].key, source.key);
    }
    assert IndexOfKey(r, source.key) == |sources|;
    assert r[..|sources|] + r[|sources| + 1..] == sources;
  }

  // ---------------------------------------------------------------------
  // ConsoleFactory and the concrete consoles. `Console.__init__` never
  // assigns `sources`; the model starts every console from an empty list.

  function PlayStationOneConsole(): Console {
    Console(PlayStation1, [])
  }

  /** `PlayStationTwoConsole` as written: it passes PLAYSTATION_1 up, so it
      cannot be told apart from the PlayStation 1 console. */
  function PlayStationTwoConsole(): (c: Console)
    ensures c == PlayStationOneConsole()
    ensures c.consoleType != PlayStation2
  {
    Console(PlayStation1, [])
  }

  function GameCubeConsole(): Console {
    Console(GameCube, [])
  }

  /** `ConsoleFactory(t).create_console()` */
  function CreateConsole(t: ConsoleType): (r: Result<Console>)
    ensures r.Ok? <==> t == PlayStation1
    ensures r.Ok? ==> r.value.consoleType == PlayStation1 && r.value.sources == []
    ensures r.Err? ==> r.error == NotImplementedError("Unsupported console ConsoleType." + Name(t) + ".")
  {
    if t == PlayStation1 then Ok(PlayStationOneConsole())
    else Err(NotImplementedError("Unsupported console ConsoleType." + Name(t) + "."))
  }
}
