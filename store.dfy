/** The local state the import writes into: the player store's timing
    tables and current character, and the character history archive. */
module Store {
  import opened Domain

  /** A dungeon's record as the store keeps it: each modifier's entry
      without its score. */
  function Stored(entries: ByWeek<ScoredTiming>): (r: ByWeek<Timing>)
    ensures forall w :: r.Get(w) == entries.Get(w).WithoutScore()
  {
    ByWeek(entries.tyrannical.WithoutScore(), entries.fortified.WithoutScore())
  }

  /** `after` is the table `before` once the dungeons of `newData` outside
      `remaining` have been written: those hold the new records without
      scores, every other dungeon its old record. */
  predicate MergedInto(before: map<string, ByWeek<Timing>>, after: map<string, ByWeek<Timing>>,
                       newData: Table, remaining: set<string>) {
    && newData.Keys <= before.Keys
    && after.Keys == before.Keys
    && (forall d :: d in newData && d !in remaining ==> after[d] == Stored(newData[d]))
    && (forall d :: d in before && (d !in newData || d in remaining) ==> after[d] == before[d])
  }

  /** Writing one more dungeon of `newData` extends the merge by it. */
  lemma MergeStep(before: map<string, ByWeek<Timing>>, after: map<string, ByWeek<Timing>>,
                  newData: Table, remaining: set<string>, d: string)
    requires MergedInto(before, after, newData, remaining) && d in remaining && remaining <= newData.Keys
    ensures MergedInto(before, after[d := Stored(newData[d])], newData, remaining - {d})
  {
  }

  /** A dungeon's record once the modifiers `weeks` have been written, in
      that order, with the entries of `timings` without scores. */
  function Written(rec: ByWeek<Timing>, timings: ByWeek<ScoredTiming>, weeks: seq<Week>): ByWeek<Timing> {
    if weeks == [] then rec
    else
      var w := weeks[|weeks| - 1];
      Written(rec, timings, weeks[..|weeks| - 1]).Set(w, timings.Get(w).WithoutScore())
  }

  /** Writing both modifiers replaces the whole record. */
  lemma WrittenBothWeeks(rec: ByWeek<Timing>, timings: ByWeek<ScoredTiming>)
    ensures Written(rec, timings, [Tyrannical, Fortified]) == Stored(timings)
  {
    assert [Tyrannical, Fortified][..1] == [Tyrannical];
    assert [Tyrannical][..0] == [];
  }

  /** The player store's timing tables and current character. The
      calculated scores (`originalScores`) are derived by the store from
      code not in this model; the import reads them as an input. */
  class PlayerData {
    var originalTimes: map<string, ByWeek<Timing>>
    var hypotheticalTimes: map<string, ByWeek<Timing>>
    var characterInfo: Option<CharacterInfo>

    constructor (times: map<string, ByWeek<Timing>>)
      ensures originalTimes == times && hypotheticalTimes == times && characterInfo == None
    {
      originalTimes := times;
      hypotheticalTimes := times;
      characterInfo := None;
    }

    /** `applyImport`: for every dungeon and weekly modifier of the new
        table, both the original and the hypothetical entry become that
        entry without its score; every other dungeon keeps its entries.
        The character is set on every inner iteration, hence exactly when
        the new table is not empty. The tables are records over all
        dungeons, so every dungeon of the new table is already in them. */
    method ApplyImport(newDungeonData: Table, info: CharacterInfo)
      requires newDungeonData.Keys <= originalTimes.Keys && newDungeonData.Keys <= hypotheticalTimes.Keys
      modifies this
      ensures originalTimes.Keys == old(originalTimes.Keys)
      ensures hypotheticalTimes.Keys == old(hypotheticalTimes.Keys)
      ensures forall d, w :: d in newDungeonData ==>
                               && originalTimes[d].Get(w) == newDungeonData[d].Get(w).WithoutScore()
                               && hypotheticalTimes[d].Get(w) == newDungeonData[d].Get(w).WithoutScore()
      ensures forall d :: d in old(originalTimes) && d !in newDungeonData ==> originalTimes[d] == old(originalTimes[d])
      ensures forall d :: d in old(hypotheticalTimes) && d !in newDungeonData ==>
                            hypotheticalTimes[d] == old(hypotheticalTimes[d])
      ensures characterInfo == if newDungeonData == map[] then old(characterInfo) else Some(info)
    {
      var remaining := newDungeonData.Keys;
      while remaining != {}
        invariant remaining <= newDungeonData.Keys
        invariant MergedInto(old(originalTimes), originalTimes, newDungeonData, remaining)
        invariant MergedInto(old(hypotheticalTimes), hypotheticalTimes, newDungeonData, remaining)
        invariant characterInfo == if remaining == newDungeonData.Keys then old(characterInfo) else Some(info)
        decreases remaining
      {
        var dungeon :| dungeon in remaining;
        MergeStep(old(originalTimes), originalTimes, newDungeonData, remaining, dungeon);
        MergeStep(old(hypotheticalTimes), hypotheticalTimes, newDungeonData, remaining, dungeon);
        WriteDungeon(dungeon, newDungeonData[dungeon], info);
        remaining := remaining - {dungeon};
      }
    }

    /** The inner loop of `applyImport`, over the weekly modifiers of one
        dungeon's record in its key order. */
    method WriteDungeon(dungeon: string, timings: ByWeek<ScoredTiming>, info: CharacterInfo)
      requires dungeon in originalTimes && dungeon in hypotheticalTimes
      modifies this
      ensures originalTimes == old(originalTimes)[dungeon := Stored(timings)]
      ensures hypotheticalTimes == old(hypotheticalTimes)[dungeon := Stored(timings)]
      ensures characterInfo == Some(info)
    {
      var weeks := [Tyrannical, Fortified];
      ghost var original, hypothetical := originalTimes[dungeon], hypotheticalTimes[dungeon];
      var k := 0;
      while k < |weeks|
        invariant 0 <= k <= |weeks|
        invariant originalTimes == old(originalTimes)[dungeon := Written(original, timings, weeks[..k])]
        invariant hypotheticalTimes == old(hypotheticalTimes)[dungeon := Written(hypothetical, timings, weeks[..k])]
        invariant characterInfo == if k == 0 then old(characterInfo) else Some(info)
      {
        var week := weeks[k];
        var timing := timings.Get(week);
        assert weeks[..k + 1][..k] == weeks[..k] && weeks[..k + 1][k] == week;
        assert originalTimes[dungeon].Set(week, timing.WithoutScore()) == Written(original, timings, weeks[..k + 1]);
        assert hypotheticalTimes[dungeon].Set(week, timing.WithoutScore()) == Written(hypothetical, timings, weeks[..k + 1]);
        originalTimes := originalTimes[dungeon := originalTimes[dungeon].Set(week, timing.WithoutScore())];
        hypotheticalTimes := hypotheticalTimes[dungeon := hypotheticalTimes[dungeon].Set(week, timing.WithoutScore())];
        characterInfo := Some(info);
        k := k + 1;
      }
      WrittenBothWeeks(original, timings);
      WrittenBothWeeks(hypothetical, timings);
      assert weeks[..k] == [Tyrannical, Fortified];
    }
  }

  /** The character history archive: an append-only list of the imported
      characters. */
  class CharacterHistory {
    var entries: seq<CharacterInfo>

    constructor ()
      ensures entries == []
    {
      entries := [];
    }

    method Save(info: CharacterInfo)
      modifies this
      ensures entries == old(entries) + [info]
    {
      entries := entries + [info];
    }
  }
}
