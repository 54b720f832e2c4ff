/** The score cross-check of `checkScores`: for every dungeon, the store's
    calculated base score per weekly modifier against the score Raider.IO
    reported for the imported run. Score equality is the score type's own
    `equals`, given here as a parameter. */
module Scores {
  import opened Domain

  predicate Covers<T>(catalog: Catalog, m: map<string, T>) {
    ShortSet(catalog) <= m.Keys
  }

  /** The warnings for one dungeon: Fortified is checked before Tyrannical. */
  function DungeonMismatches<S>(d: string, imported: ByWeek<ScoredTiming>, calculated: ByWeek<S>,
                                equals: (S, int) -> bool): seq<ScoreMismatch<S>>
  {
    (if !equals(calculated.fortified, imported.fortified.score)
     then [ScoreMismatch(d, Fortified, imported.fortified.score, calculated.fortified)] else [])
    + (if !equals(calculated.tyrannical, imported.tyrannical.score)
       then [ScoreMismatch(d, Tyrannical, imported.tyrannical.score, calculated.tyrannical)] else [])
  }

  /** The warnings for one dungeon are exactly its mismatching slots, at
      most one per modifier, and Fortified comes first when both are. */
  lemma DungeonMismatchesExact<S>(d: string, imported: ByWeek<ScoredTiming>, calculated: ByWeek<S>,
                                  equals: (S, int) -> bool)
    ensures var ms := DungeonMismatches(d, imported, calculated, equals);
            && (forall m :: m in ms <==>
                              && m.dungeon == d
                              && m.expected == imported.Get(m.week).score
                              && m.calculated == calculated.Get(m.week)
                              && !equals(m.calculated, m.expected))
            && |ms| <= 2
            && (|ms| == 2 ==> ms[0].week == Fortified && ms[1].week == Tyrannical)
  {
    var ms := DungeonMismatches(d, imported, calculated, equals);
    forall m: ScoreMismatch<S> | m.dungeon == d && m.expected == imported.Get(m.week).score
                && m.calculated == calculated.Get(m.week) && !equals(m.calculated, m.expected)
      ensures m in ms
    {
      match m.week
      case Fortified => assert m == ScoreMismatch(d, Fortified, imported.fortified.score, calculated.fortified);
      case Tyrannical => assert m == ScoreMismatch(d, Tyrannical, imported.tyrannical.score, calculated.tyrannical);
    }
  }

  /** All warnings, dungeon by dungeon in catalog order. */
  function ScoreMismatches<S>(catalog: Catalog, imported: Table, calculated: map<string, ByWeek<S>>,
                              equals: (S, int) -> bool): seq<ScoreMismatch<S>>
    requires Covers(catalog, imported) && Covers(catalog, calculated)
  {
    if catalog == [] then []
    else
      var d := catalog[0].shortName;
      DungeonMismatches(d, imported[d], calculated[d], equals)
      + ScoreMismatches(catalog[1..], imported, calculated, equals)
  }

  /** The mismatch a warning reports is real: the imported score of its
      slot and the calculated one of that slot, which `equals` rejects. */
  ghost predicate IsMismatch<S>(m: ScoreMismatch<S>, imported: Table, calculated: map<string, ByWeek<S>>,
                                equals: (S, int) -> bool)
  {
    && m.dungeon in imported && m.dungeon in calculated
    && m.expected == imported[m.dungeon].Get(m.week).score
    && m.calculated == calculated[m.dungeon].Get(m.week)
    && !equals(m.calculated, m.expected)
  }

  /** `checkScores`: warns about every mismatching slot and returns false. */
  method CheckScores<S>(catalog: Catalog, newDungeonData: Table, originalScores: map<string, ByWeek<S>>,
                        equals: (S, int) -> bool)
    returns (warnings: seq<ScoreMismatch<S>>, result: bool)
    requires Covers(catalog, newDungeonData) && Covers(catalog, originalScores)
    ensures warnings == ScoreMismatches(catalog, newDungeonData, originalScores, equals)
    ensures !result
  {
    warnings := [];
    var i := 0;
    assert catalog[i..] == catalog;
    while i < |catalog|
      invariant ScoreProgress(catalog, i, newDungeonData, originalScores, equals, warnings)
    {
      var dungeon := catalog[i].shortName;
      NameInSuffix(catalog, i);
      var found := CheckDungeon(dungeon, newDungeonData[dungeon], originalScores[dungeon], equals);
      CheckScoresStep(catalog, i, newDungeonData, originalScores, equals, warnings, found);
      warnings := warnings + found;
      i := i + 1;
    }
    assert catalog[i..] == [];
    result := false;
  }

  /** The invariant of the loop of `CheckScores` after the first i
      dungeons: the warnings so far followed by those of the remaining
      dungeons are all the warnings. */
  ghost predicate ScoreProgress<S>(catalog: Catalog, i: nat, imported: Table, calculated: map<string, ByWeek<S>>,
                                   equals: (S, int) -> bool, warnings: seq<ScoreMismatch<S>>)
  {
    && Covers(catalog, imported) && Covers(catalog, calculated)
    && i <= |catalog| && ShortSet(catalog[i..]) <= ShortSet(catalog)
    && warnings + ScoreMismatches(catalog[i..], imported, calculated, equals)
       == ScoreMismatches(catalog, imported, calculated, equals)
  }

  /** The dungeon at position i is a catalog dungeon. */
  lemma NameInSuffix(catalog: Catalog, i: nat)
    requires i < |catalog| && ShortSet(catalog[i..]) <= ShortSet(catalog)
    ensures catalog[i].shortName in ShortSet(catalog)
  {
    assert catalog[i..][0] == catalog[i];
  }

  /** One iteration of the loop of `CheckScores` keeps its invariant. */
  lemma CheckScoresStep<S>(catalog: Catalog, i: nat, imported: Table, calculated: map<string, ByWeek<S>>,
                           equals: (S, int) -> bool, before: seq<ScoreMismatch<S>>, found: seq<ScoreMismatch<S>>)
    requires i < |catalog| && ScoreProgress(catalog, i, imported, calculated, equals, before)
    requires catalog[i].shortName in imported && catalog[i].shortName in calculated
    requires found == DungeonMismatches(catalog[i].shortName, imported[catalog[i].shortName],
                                        calculated[catalog[i].shortName], equals)
    ensures ScoreProgress(catalog, i + 1, imported, calculated, equals, before + found)
  {
    ScoreMismatchesAt(catalog, i, imported, calculated, equals);
    var rest := ScoreMismatches(catalog[i + 1..], imported, calculated, equals);
    assert (before + found) + rest == before + (found + rest);
  }

  /** The body of the `checkScores` loop for one dungeon: Fortified is
      checked first, then Tyrannical. */
  method CheckDungeon<S>(dungeon: string, imported: ByWeek<ScoredTiming>, calculated: ByWeek<S>,
                         equals: (S, int) -> bool)
    returns (warnings: seq<ScoreMismatch<S>>)
    ensures forall m :: m in warnings <==>
                          && m.dungeon == dungeon
                          && m.expected == imported.Get(m.week).score
                          && m.calculated == calculated.Get(m.week)
                          && !equals(m.calculated, m.expected)
    ensures |warnings| <= 2 && (|warnings| == 2 ==> warnings[0].week == Fortified && warnings[1].week == Tyrannical)
    ensures warnings == DungeonMismatches(dungeon, imported, calculated, equals)
  {
    warnings := [];
    var fortified := calculated.fortified;
    var tyrannical := calculated.tyrannical;
    var expectedFortified := imported.fortified.score;
    var expectedTyrannical := imported.tyrannical.score;
    if !equals(fortified, expectedFortified) {
      warnings := warnings + [ScoreMismatch(dungeon, Fortified, expectedFortified, fortified)];
    }
    if !equals(tyrannical, expectedTyrannical) {
      warnings := warnings + [ScoreMismatch(dungeon, Tyrannical, expectedTyrannical, tyrannical)];
    }
    DungeonMismatchesExact(dungeon, imported, calculated, equals);
  }

  /** Unrolls the warnings of a catalog suffix by one dungeon. */
  lemma ScoreMismatchesAt<S>(catalog: Catalog, i: nat, imported: Table, calculated: map<string, ByWeek<S>>,
                             equals: (S, int) -> bool)
    requires i < |catalog| && ShortSet(catalog[i..]) <= imported.Keys && ShortSet(catalog[i..]) <= calculated.Keys
    ensures catalog[i].shortName in imported && catalog[i].shortName in calculated
    ensures ShortSet(catalog[i + 1..]) <= ShortSet(catalog[i..])
    ensures ScoreMismatches(catalog[i..], imported, calculated, equals)
            == DungeonMismatches(catalog[i].shortName, imported[catalog[i].shortName],
                                 calculated[catalog[i].shortName], equals)
               + ScoreMismatches(catalog[i + 1..], imported, calculated, equals)
  {
    assert catalog[i..][0] == catalog[i] && catalog[i..][1..] == catalog[i + 1..];
  }

  /** A warning is emitted exactly for each mismatching slot of a catalog
      dungeon, with the imported score as expected and the calculated base
      score beside it. */
  lemma {:induction false} ScoreMismatchesExact<S>(catalog: Catalog, imported: Table,
                                                      calculated: map<string, ByWeek<S>>,
                                                      equals: (S, int) -> bool, m: ScoreMismatch<S>)
    requires Covers(catalog, imported) && Covers(catalog, calculated)
    ensures m in ScoreMismatches(catalog, imported, calculated, equals) <==>
              m.dungeon in ShortSet(catalog) && IsMismatch(m, imported, calculated, equals)
  {
    if catalog != [] {
      ScoreMismatchesExact(catalog[1..], imported, calculated, equals, m);
      var d := catalog[0].shortName;
      DungeonMismatchesExact(d, imported[d], calculated[d], equals);
    }
  }

  /** No warning at all exactly when every slot of every catalog dungeon
      agrees under `equals`. */
  lemma NoMismatchesWhenAllAgree<S>(catalog: Catalog, imported: Table, calculated: map<string, ByWeek<S>>,
                                        equals: (S, int) -> bool)
    requires Covers(catalog, imported) && Covers(catalog, calculated)
    ensures ScoreMismatches(catalog, imported, calculated, equals) == [] <==>
              forall d, w :: d in ShortSet(catalog) ==>
                               equals(calculated[d].Get(w), imported[d].Get(w).score)
  {
    var ms := ScoreMismatches(catalog, imported, calculated, equals);
    if ms == [] {
      forall d, w | d in ShortSet(catalog)
        ensures equals(calculated[d].Get(w), imported[d].Get(w).score)
      {
        var m := ScoreMismatch(d, w, imported[d].Get(w).score, calculated[d].Get(w));
        ScoreMismatchesExact(catalog, imported, calculated, equals, m);
      }
    } else {
      var m := ms[0];
      ScoreMismatchesExact(catalog, imported, calculated, equals, m);
    }
  }
}
