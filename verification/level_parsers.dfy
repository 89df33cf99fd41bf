/**
 * `getPinLocations` and `createLevelFromILoveHueLevelDescriptor`
 * (src/ILoveHueParsers.js). A pattern name is looked up in the catalogue, the
 * cells it pins become `"col,row"` ids, and a `Set` drops the repeats while
 * keeping first-insertion order. A level descriptor maps onto the raw level
 * record of src/Level.js.
 */
module LevelParsers {
  import opened Wrappers
  import opened CellIds
  import opened PinPatterns
  import opened Tiles
  import opened Levels

  /** No id occurs twice. */
  predicate Distinct(s: seq<string>) {
    forall a, b :: 0 <= a < b < |s| ==> s[a] != s[b]
  }

  /** `pinLocations.add(id)` for each id of `s` in turn, starting from the set `acc`. */
  function AddAll(acc: seq<string>, s: seq<string>): (r: seq<string>)
    ensures forall x :: x in r <==> x in acc || x in s
    ensures Distinct(acc) ==> Distinct(r)
    ensures |acc| <= |r| && r[..|acc|] == acc
    decreases |s|
  {
    if s == [] then acc
    else AddAll(if s[0] in acc then acc else acc + [s[0]], s[1..])
  }

  /** `Array.from(new Set(s))`: each id once, in order of first occurrence. */
  function Dedup(s: seq<string>): (r: seq<string>)
    ensures Distinct(r)
    ensures forall x :: x in r <==> x in s
  {
    AddAll([], s)
  }

  /** The `${col},${row}` id of every pinned cell, in pin order. */
  function Ids(cells: seq<Cell>): (ids: seq<string>)
    ensures |ids| == |cells|
    ensures forall k :: 0 <= k < |cells| ==> ids[k] == CellId(cells[k].col, cells[k].row)
  {
    seq(|cells|, k requires 0 <= k < |cells| => CellId(cells[k].col, cells[k].row))
  }

  /** The message of the `Error` thrown for a name outside the catalogue. */
  function Unrecognized(name: string): string {
    "Unrecognized pin pattern: " + name
  }

  /**
   * `getPinLocations`, with the name check read as "the catalogue has its own
   * pattern of that name". An unknown name is an error; otherwise the result
   * lists each pinned id exactly once.
   */
  function GetPinLocations(name: string, width: int, height: int): (r: Result<seq<string>>)
    ensures r.Failure? <==> PatternNamed(name).None?
    ensures r.Failure? ==> r.error == Unrecognized(name)
    ensures r.Success? ==> Distinct(r.value)
    ensures r.Success? ==> forall col, row ::
      CellId(col, row) in r.value <==> Cell(col, row) in Trace(PatternNamed(name).value, width, height)
  {
    match PatternNamed(name)
    case None => Failure(Unrecognized(name))
    case Some(p) =>
      var ids := Dedup(Ids(Trace(p, width, height)));
      PinIdsAreCells(Trace(p, width, height), ids);
      Success(ids)
  }

  /** An id is in the deduplicated list exactly when its cell was pinned. */
  lemma PinIdsAreCells(cells: seq<Cell>, ids: seq<string>)
    requires forall x :: x in ids <==> x in Ids(cells)
    ensures forall col, row :: CellId(col, row) in ids <==> Cell(col, row) in cells
  {
    forall col, row
      ensures CellId(col, row) in ids <==> Cell(col, row) in cells
    {
      if CellId(col, row) in ids {
        var k :| 0 <= k < |cells| && Ids(cells)[k] == CellId(col, row);
        CellIdInjective(cells[k].col, cells[k].row, col, row);
      }
      if Cell(col, row) in cells {
        var k :| 0 <= k < |cells| && cells[k] == Cell(col, row);
        assert Ids(cells)[k] == CellId(col, row);
      }
    }
  }

  /**
   * Names that JavaScript's `in` finds on every plain object through
   * `Object.prototype`, and whose inherited method returns normally when the
   * source calls it as `f(width, height, pin)` without ever calling `pin`.
   */
  predicate InheritedQuietly(name: string) {
    name in {"toString", "toLocaleString", "valueOf", "hasOwnProperty", "isPrototypeOf",
             "propertyIsEnumerable", "constructor", "__lookupGetter__", "__lookupSetter__"}
  }

  /**
   * Names `in` also finds through `Object.prototype` whose inherited value
   * throws a `TypeError` when called so.
   */
  predicate InheritedThrowing(name: string) {
    name in {"__defineGetter__", "__defineSetter__", "__proto__"}
  }

  /**
   * `getPinLocations` as written: the guard `patternName in pinPatternFunctions`
   * also accepts names inherited from `Object.prototype`, and calling the
   * inherited member pins nothing.
   */
  function GetPinLocationsAsWritten(name: string, width: int, height: int): (r: Result<seq<string>>)
    ensures PatternNamed(name).Some? ==> r == GetPinLocations(name, width, height)
    ensures PatternNamed(name).None? && InheritedQuietly(name) ==> r == Success([])
    ensures r.Failure? <==> PatternNamed(name).None? && !InheritedQuietly(name)
  {
    match PatternNamed(name)
    case Some(_) => GetPinLocations(name, width, height)
    case None =>
      if InheritedQuietly(name) then Success([])
      else if InheritedThrowing(name) then Failure("TypeError")
      else Failure(Unrecognized(name))
  }

  /** The as-written guard lets `"toString"` through: no error, and no pins for a 5 x 7 level. */
  lemma ToStringPassesGuard()
    ensures GetPinLocationsAsWritten("toString", 5, 7) == Success([])
    ensures GetPinLocations("toString", 5, 7) == Failure(Unrecognized("toString"))
  {
    assert PatternNamed("toString") == None;
    assert InheritedQuietly("toString");
  }

  /** The ids of the first hand-written level of src/levels.js, one source line per part. */
  const FirstLevelPins: seq<string> :=
    ["0,0", "1,0", "2,0", "3,0", "4,0"] +
    ["0,1", "2,1", "4,1"] +
    ["0,2", "2,2", "4,2"] +
    ["0,3", "2,3", "4,3"] +
    ["0,4", "2,4", "4,4"] +
    ["0,5", "2,5", "4,5"] +
    ["0,6", "1,6", "2,6", "3,6", "4,6"]

  /** A list with no repeats passes through the `Set` unchanged. */
  lemma {:induction false} AddAllFresh(acc: seq<string>, s: seq<string>)
    requires Distinct(acc + s)
    ensures AddAll(acc, s) == acc + s
    decreases |s|
  {
    if s != [] {
      forall k | 0 <= k < |acc|
        ensures acc[k] != s[0]
      {
        assert (acc + s)[k] == acc[k];
        assert (acc + s)[|acc|] == s[0];
      }
      assert acc + s == (acc + [s[0]]) + s[1..];
      AddAllFresh(acc + [s[0]], s[1..]);
    }
  }

  lemma IdsAppend(a: seq<Cell>, b: seq<Cell>)
    ensures Ids(a + b) == Ids(a) + Ids(b)
  {}

  /** The id of column `c` of a single-digit row `r`. */
  function SmallId(c: nat, r: nat): string
    requires c < 10 && r < 10
  {
    [DigitChar(c), ',', DigitChar(r)]
  }

  lemma FullRowIds(r: nat)
    requires r < 10
    ensures Ids(FullRow5(r)) == [SmallId(0, r), SmallId(1, r), SmallId(2, r), SmallId(3, r), SmallId(4, r)]
  {
    var ids := Ids(FullRow5(r));
    SmallCellId(0, r);
    SmallCellId(1, r);
    SmallCellId(2, r);
    SmallCellId(3, r);
    SmallCellId(4, r);
    assert ids[0] == CellId(0, r) && ids[1] == CellId(1, r) && ids[2] == CellId(2, r);
    assert ids[3] == CellId(3, r) && ids[4] == CellId(4, r);
  }

  lemma CentralRowIds(r: nat)
    requires r < 10
    ensures Ids(CentralColumnRow(r)) == [SmallId(0, r), SmallId(2, r), SmallId(4, r)]
  {
    var ids := Ids(CentralColumnRow(r));
    SmallCellId(0, r);
    SmallCellId(2, r);
    SmallCellId(4, r);
    assert ids[0] == CellId(0, r) && ids[1] == CellId(2, r) && ids[2] == CellId(4, r);
  }

  /** The ids of the 5 x 7 `edges-and-central-column` trace, in pin order. */
  lemma CentralColumnIds()
    ensures Ids(Trace(EdgesAndCentralColumn, 5, 7)) == FirstLevelPins
  {
    var top, bottom := FullRow5(0), FullRow5(6);
    var r1, r2, r3, r4, r5 := CentralColumnRow(1), CentralColumnRow(2), CentralColumnRow(3),
                              CentralColumnRow(4), CentralColumnRow(5);
    assert Trace(EdgesAndCentralColumn, 5, 7) == top + (r1 + (r2 + (r3 + (r4 + r5)))) + bottom by {
      CentralColumnAt5x7();
      assert r5 + [] == r5;
    }
    IdsAppend(top + (r1 + (r2 + (r3 + (r4 + r5)))), bottom);
    IdsAppend(top, r1 + (r2 + (r3 + (r4 + r5))));
    IdsAppend(r1, r2 + (r3 + (r4 + r5)));
    IdsAppend(r2, r3 + (r4 + r5));
    IdsAppend(r3, r4 + r5);
    IdsAppend(r4, r5);
    var i0, i1, i2, i3, i4, i5, i6 := Ids(top), Ids(r1), Ids(r2), Ids(r3), Ids(r4), Ids(r5), Ids(bottom);
    assert i0 == ["0,0", "1,0", "2,0", "3,0", "4,0"] by { FullRowIds(0); }
    assert i1 == ["0,1", "2,1", "4,1"] by { CentralRowIds(1); }
    assert i2 == ["0,2", "2,2", "4,2"] by { CentralRowIds(2); }
    assert i3 == ["0,3", "2,3", "4,3"] by { CentralRowIds(3); }
    assert i4 == ["0,4", "2,4", "4,4"] by { CentralRowIds(4); }
    assert i5 == ["0,5", "2,5", "4,5"] by { CentralRowIds(5); }
    assert i6 == ["0,6", "1,6", "2,6", "3,6", "4,6"] by { FullRowIds(6); }
    Regroup(i0, i1, i2, i3, i4, i5, i6);
  }

  lemma Regroup<T>(a: seq<T>, b: seq<T>, c: seq<T>, d: seq<T>, e: seq<T>, f: seq<T>, g: seq<T>)
    ensures a + (b + (c + (d + (e + f)))) + g == a + b + c + d + e + f + g
  {}

  /**
   * The `edges-and-central-column` pins at 5 x 7 are exactly the first
   * level's pinned ids.
   */
  lemma CentralColumnMatchesFirstLevel()
    ensures GetPinLocations("edges-and-central-column", 5, 7).Success?
    ensures forall id :: id in GetPinLocations("edges-and-central-column", 5, 7).value <==> id in FirstLevelPins
  {
    var r := GetPinLocations("edges-and-central-column", 5, 7);
    assert r == Success(Dedup(Ids(Trace(EdgesAndCentralColumn, 5, 7)))) by {
      assert PatternNamed("edges-and-central-column") == Some(EdgesAndCentralColumn);
    }
    CentralColumnIds();
  }

  /** An I Love Hue level descriptor: four corner colours, the size, the pin pattern and `extra.shufflePreview`. */
  datatype Descriptor = Descriptor(
    hex1: Color, hex2: Color, hex3: Color, hex4: Color,
    width: int, height: int,
    pins: string,
    shufflePreview: Option<bool>)

  /**
   * `createLevelFromILoveHueLevelDescriptor`: the raw level record. It fails
   * exactly when the pin pattern is unknown; otherwise the corners, size and
   * pins carry over and the target is shown first unless the descriptor asks
   * for a shuffle preview.
   */
  function CreateLevelFromDescriptor(d: Descriptor): (r: Result<RawLevel>)
    ensures r.Failure? <==> PatternNamed(d.pins).None?
    ensures r.Success? ==>
      r.value.anchorColors == Anchors(d.hex1, d.hex2, d.hex3, d.hex4) &&
      r.value.resolution == (d.width, d.height) &&
      r.value.showTargetStateBeforeRandomizing == (d.shufflePreview != Some(true)) &&
      Distinct(r.value.pinnedTiles)
  {
    match GetPinLocations(d.pins, d.width, d.height)
    case Failure(e) => Failure(e)
    case Success(pins) =>
      Success(RawLevel(Anchors(d.hex1, d.hex2, d.hex3, d.hex4), (d.width, d.height), pins,
                       !(d.shufflePreview == Some(true))))
  }

  /**
   * `createLevelFromILoveHueLevelDescriptor` as written, over the as-written
   * `getPinLocations`: a catalogue name behaves as in
   * `CreateLevelFromDescriptor`, and a name `in` finds on `Object.prototype`
   * without a throwing member gives a level with no pins.
   */
  function CreateLevelFromDescriptorAsWritten(d: Descriptor): (r: Result<RawLevel>)
    ensures PatternNamed(d.pins).Some? ==> r == CreateLevelFromDescriptor(d)
    ensures r.Failure? <==> PatternNamed(d.pins).None? && !InheritedQuietly(d.pins)
    ensures r.Success? ==>
      r.value.anchorColors == Anchors(d.hex1, d.hex2, d.hex3, d.hex4) &&
      r.value.resolution == (d.width, d.height) &&
      r.value.showTargetStateBeforeRandomizing == (d.shufflePreview != Some(true))
    ensures PatternNamed(d.pins).None? && InheritedQuietly(d.pins) ==> r.Success? && r.value.pinnedTiles == []
  {
    match GetPinLocationsAsWritten(d.pins, d.width, d.height)
    case Failure(e) => Failure(e)
    case Success(pins) =>
      Success(RawLevel(Anchors(d.hex1, d.hex2, d.hex3, d.hex4), (d.width, d.height), pins,
                       !(d.shufflePreview == Some(true))))
  }

  /**
   * A descriptor whose pattern is `"toString"` yields, as written, a level
   * with no pinned tiles; the corrected parser rejects it.
   */
  lemma ToStringDescriptorHasNoPins(d: Descriptor)
    requires d.pins == "toString"
    ensures CreateLevelFromDescriptorAsWritten(d).Success?
    ensures CreateLevelFromDescriptorAsWritten(d).value.pinnedTiles == []
    ensures CreateLevelFromDescriptor(d).Failure?
  {
    assert PatternNamed("toString") == None;
    assert InheritedQuietly("toString");
  }

  /**
   * On the grid built from a descriptor's level, a socket is pinned exactly
   * when the descriptor's pattern pins its cell.
   */
  lemma DescriptorPinsSockets(d: Descriptor, colors: seq<seq<Color>>, i: int, j: int)
    requires PatternNamed(d.pins).Some?
    requires |colors| == d.height && forall r :: 0 <= r < |colors| ==> |colors[r]| == d.width
    requires 0 <= i < d.width && 0 <= j < d.height
    ensures CreateLevelFromDescriptor(d).Success?
    ensures ColorsFit(NewLevel(CreateLevelFromDescriptor(d).value), colors)
    ensures HomeSocket(NewLevel(CreateLevelFromDescriptor(d).value), colors, i, j).pinned <==>
      Cell(i, j) in Trace(PatternNamed(d.pins).value, d.width, d.height)
  {
    var pins := GetPinLocations(d.pins, d.width, d.height).value;
    assert CreateLevelFromDescriptor(d).value.pinnedTiles == pins;
  }
}
