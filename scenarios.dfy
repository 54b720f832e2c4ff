/** Worked scenarios of the import, stated on the specification functions. */
module Scenarios {
  import opened Domain
  import opened Classifier
  import opened BestRuns

  const TyrannicalRun: Run :=
    Run("X", [Affix(9)], 20, 3, 1000000, 1200000, 300)

  /** One Tyrannical run of dungeon X whose par time matches the catalog:
      it is selected for (X, Tyrannical), the Fortified slot stays zero and
      no timer warning is emitted. */
  lemma MatchingParTime()
    ensures Selection([Dungeon("X", 1200000)], [TyrannicalRun])
            == Ok(map["X" := ByWeek(ScoredTiming(20, 3, 1000000, 300), ZeroEntry)])
    ensures AllKnown([Dungeon("X", 1200000)], [TyrannicalRun])
    ensures TimerWarnings([Dungeon("X", 1200000)], [TyrannicalRun]) == []
  {
    var catalog := [Dungeon("X", 1200000)];
    var runs := [TyrannicalRun];
    assert HasAffix(TyrannicalRun.affixes, 9) by { assert TyrannicalRun.affixes[0].id == 9; }
    assert catalog[1..] == [] && runs[1..] == [] && runs[..0] == [];
    var empty := EmptyDungeonTimings(catalog);
    assert empty == map["X" := ByWeek(ZeroEntry, ZeroEntry)];
    assert WeekFromAffixes(TyrannicalRun.affixes) == Tyrannical;
    StepUpdate(empty, TyrannicalRun);
    var next := map["X" := ByWeek(ScoredTiming(20, 3, 1000000, 300), ZeroEntry)];
    assert EntryOf(TyrannicalRun) == ScoredTiming(20, 3, 1000000, 300);
    assert empty["X"].Set(Tyrannical, EntryOf(TyrannicalRun)) == next["X"];
    assert empty["X" := next["X"]] == next;
    assert Step(empty, TyrannicalRun) == Ok(next);
    FoldFirst(empty, runs);
    assert Fold(next, runs[1..]) == Ok(next);
  }

  /** The same run against a catalog whose par time for X differs: one
      warning with the catalog's value as expected and the run's as
      actual, and the same selection as before. */
  lemma MismatchingParTime()
    ensures Selection([Dungeon("X", 1300000)], [TyrannicalRun])
            == Ok(map["X" := ByWeek(ScoredTiming(20, 3, 1000000, 300), ZeroEntry)])
    ensures AllKnown([Dungeon("X", 1300000)], [TyrannicalRun])
    ensures TimerWarnings([Dungeon("X", 1300000)], [TyrannicalRun])
            == [TimerMismatch("X", Tyrannical, 1300000, 1200000)]
  {
    MatchingParTime();
    var catalog := [Dungeon("X", 1300000)];
    var runs := [TyrannicalRun];
    assert HasAffix(TyrannicalRun.affixes, 9) by { assert TyrannicalRun.affixes[0].id == 9; }
    assert catalog[1..] == [] && runs[..0] == [];
    SelectionIgnoresParTimes([Dungeon("X", 1200000)], catalog, runs);
  }

  /** A run of a dungeon the catalog lacks makes the selection fail. */
  lemma UnknownDungeonFails()
    ensures Selection([Dungeon("X", 1200000)], [Run("Y", [], 2, 0, 1, 1, 10)]) == Err(UnknownDungeon("Y"))
  {
    var catalog := [Dungeon("X", 1200000)];
    assert catalog[1..] == [];
    FoldFailsAtFirstUnknown(EmptyDungeonTimings(catalog), [Run("Y", [], 2, 0, 1, 1, 10)], 0);
  }
}
