/** The empty timing table, the best-run selection fold and the par-time
    check of `runImport`. */
module BestRuns {
  import opened Domain
  import opened Classifier

  /** `createEmptyDungeonTimingObject`: a zero entry for every catalog
      dungeon and both weekly modifiers. */
  function EmptyDungeonTimings(catalog: Catalog): (t: Table)
    ensures t.Keys == ShortSet(catalog)
    ensures forall d :: d in t ==> t[d] == ByWeek(ZeroEntry, ZeroEntry)
  {
    if catalog == [] then map[]
    else EmptyDungeonTimings(catalog[1..])[catalog[0].shortName := ByWeek(ZeroEntry, ZeroEntry)]
  }

  /** The entry a run stands for when it is selected. */
  function EntryOf(run: Run): ScoredTiming {
    ScoredTiming(run.mythicLevel, run.keystoneUpgrades, run.clearTimeMs, run.score)
  }

  /** The run belongs to the slot (d, w). */
  predicate InSlot(run: Run, d: string, w: Week) {
    run.shortName == d && WeekFromAffixes(run.affixes) == w
  }

  predicate AllKnown(catalog: Catalog, runs: seq<Run>) {
    forall i :: 0 <= i < |runs| ==> runs[i].shortName in ShortSet(catalog)
  }

  /** The table update made for one run: a dungeon missing from the table
      fails (reading its record throws); otherwise the table keeps its
      dungeons (StepSlot says what happens to each slot). */
  function Step(t: Table, run: Run): (r: Result<Table>)
    ensures r.Ok? <==> run.shortName in t
    ensures r.Err? ==> r.error == UnknownDungeon(run.shortName)
    ensures r.Ok? ==> r.value.Keys == t.Keys
  {
    if run.shortName !in t then Err(UnknownDungeon(run.shortName))
    else
      var w := WeekFromAffixes(run.affixes);
      var slots := t[run.shortName];
      if slots.Get(w).score < run.score then Ok(t[run.shortName := slots.Set(w, EntryOf(run))])
      else Ok(t)
  }

  /** One run changes at most its own slot, and that one only to its own
      entry and only when its score is strictly higher. */
  lemma StepSlot(t: Table, run: Run, d: string, w: Week)
    requires run.shortName in t && d in t
    ensures var before := t[d].Get(w);
            var after := Step(t, run).value[d].Get(w);
            && (!InSlot(run, d, w) ==> after == before)
            && (InSlot(run, d, w) ==>
                  && after.score >= before.score
                  && after.score >= run.score
                  && (after == before || (after == EntryOf(run) && before.score < run.score)))
  {
  }

  /** Unrolls the fold by one run. */
  lemma FoldFirst(t: Table, runs: seq<Run>)
    requires runs != []
    ensures Fold(t, runs) == match Step(t, runs[0])
                             case Err(e) => Err(e)
                             case Ok(next) => Fold(next, runs[1..])
  {
  }

  /** The `allRuns.forEach` fold, first run first. */
  function Fold(t: Table, runs: seq<Run>): (r: Result<Table>)
    ensures r.Ok? ==> r.value.Keys == t.Keys
    decreases |runs|
  {
    if runs == [] then Ok(t)
    else
      match Step(t, runs[0])
      case Err(e) => Err(e)
      case Ok(next) => Fold(next, runs[1..])
  }

  /** The fold succeeds exactly when every run names a dungeon of the table. */
  lemma {:induction false} FoldSucceeds(t: Table, runs: seq<Run>)
    ensures Fold(t, runs).Ok? <==> forall i :: 0 <= i < |runs| ==> runs[i].shortName in t
    decreases |runs|
  {
    if runs != [] {
      match Step(t, runs[0])
      case Err(e) =>
      case Ok(next) =>
        FoldSucceeds(next, runs[1..]);
        assert forall i :: 1 <= i < |runs| ==> runs[i] == runs[1..][i - 1];
    }
  }

  /** The best-run table computed from the zero table. */
  function Selection(catalog: Catalog, runs: seq<Run>): Result<Table> {
    Fold(EmptyDungeonTimings(catalog), runs)
  }

  function TimerWarningFor(catalog: Catalog, run: Run): seq<TimerMismatch>
    requires run.shortName in ShortSet(catalog)
  {
    var expected := Plus1(catalog, run.shortName);
    if run.parTimeMs != expected
    then [TimerMismatch(run.shortName, WeekFromAffixes(run.affixes), expected, run.parTimeMs)]
    else []
  }

  /** The timer-mismatch warnings emitted for `runs`, in order. */
  function TimerWarnings(catalog: Catalog, runs: seq<Run>): seq<TimerMismatch>
    requires AllKnown(catalog, runs)
  {
    if runs == [] then []
    else TimerWarnings(catalog, runs[..|runs| - 1]) + TimerWarningFor(catalog, runs[|runs| - 1])
  }

  /** Unrolls the fold at position i of a run list. */
  lemma FoldAt(t: Table, runs: seq<Run>, i: nat)
    requires i < |runs|
    ensures Fold(t, runs[i..]) == match Step(t, runs[i])
                                  case Err(e) => Err(e)
                                  case Ok(next) => Fold(next, runs[i + 1..])
  {
    assert runs[i..][0] == runs[i] && runs[i..][1..] == runs[i + 1..];
    FoldFirst(t, runs[i..]);
  }

  /** The result of one step on a known dungeon. */
  lemma StepUpdate(t: Table, run: Run)
    requires run.shortName in t
    ensures var w := WeekFromAffixes(run.affixes);
            var slots := t[run.shortName];
            Step(t, run) == Ok(if slots.Get(w).score < run.score
                               then t[run.shortName := slots.Set(w, EntryOf(run))] else t)
  {
  }

  /** Extends the warnings of a prefix by one run. */
  lemma TimerWarningsAt(catalog: Catalog, runs: seq<Run>, i: nat)
    requires i < |runs| && AllKnown(catalog, runs[..i]) && runs[i].shortName in ShortSet(catalog)
    ensures AllKnown(catalog, runs[..i + 1])
    ensures TimerWarnings(catalog, runs[..i + 1]) == TimerWarnings(catalog, runs[..i]) + TimerWarningFor(catalog, runs[i])
  {
    var p := runs[..i + 1];
    assert p[..i] == runs[..i];
    assert forall j :: 0 <= j < i ==> p[j] == runs[..i][j];
  }

  /** The invariant of the loop of `RunImport` after the first i runs: the
      table has the catalog dungeons, those runs were known, folding the
      rest gives the selection, and the warnings are those of the prefix. */
  predicate ImportProgress(catalog: Catalog, runs: seq<Run>, i: nat, t: Table, warnings: seq<TimerMismatch>) {
    && i <= |runs|
    && t.Keys == ShortSet(catalog)
    && AllKnown(catalog, runs[..i])
    && Fold(t, runs[i..]) == Selection(catalog, runs)
    && warnings == TimerWarnings(catalog, runs[..i])
  }

  /** One iteration of the loop of `RunImport` on a known dungeon keeps its
      invariant. */
  lemma RunImportStep(catalog: Catalog, runs: seq<Run>, i: nat, before: Table, after: Table,
                      warned: seq<TimerMismatch>, warnings: seq<TimerMismatch>)
    requires i < |runs| && runs[i].shortName in before
    requires ImportProgress(catalog, runs, i, before, warned)
    requires var w := WeekFromAffixes(runs[i].affixes);
             var slots := before[runs[i].shortName];
             after == if slots.Get(w).score < runs[i].score
                      then before[runs[i].shortName := slots.Set(w, EntryOf(runs[i]))] else before
    requires var expected := Plus1(catalog, runs[i].shortName);
             warnings == if runs[i].parTimeMs != expected
                         then warned + [TimerMismatch(runs[i].shortName, WeekFromAffixes(runs[i].affixes),
                                                      expected, runs[i].parTimeMs)]
                         else warned
    ensures ImportProgress(catalog, runs, i + 1, after, warnings)
  {
    FoldAt(before, runs, i);
    StepUpdate(before, runs[i]);
    TimerWarningsAt(catalog, runs, i);
  }

  /** The raw profile once fetched and decoded. */
  datatype Profile = Profile(characterInfo: CharacterInfo, bestRuns: seq<Run>, alternateRuns: seq<Run>)

  /** What `runImport` returns. */
  datatype ImportData = ImportData(timings: Table, characterInfo: CharacterInfo)

  function AllRuns(profile: Profile): seq<Run> {
    profile.bestRuns + profile.alternateRuns
  }

  /** `runImport` after the fetch: fold every run into the zero table and
      warn about par times that differ from the catalog's. On a run of an
      unknown dungeon it fails, having warned only about the runs before it. */
  method RunImport(catalog: Catalog, profile: Profile) returns (res: Result<ImportData>, warnings: seq<TimerMismatch>)
    ensures res.Ok? <==> Selection(catalog, AllRuns(profile)).Ok?
    ensures res.Ok? ==> res.value == ImportData(Selection(catalog, AllRuns(profile)).value, profile.characterInfo)
    ensures res.Err? ==> res.error == Selection(catalog, AllRuns(profile)).error
    ensures res.Ok? ==> AllKnown(catalog, AllRuns(profile)) && warnings == TimerWarnings(catalog, AllRuns(profile))
    ensures res.Err? ==>
              exists k :: 0 <= k < |AllRuns(profile)|
                          && AllRuns(profile)[k].shortName !in ShortSet(catalog)
                          && AllKnown(catalog, AllRuns(profile)[..k])
                          && warnings == TimerWarnings(catalog, AllRuns(profile)[..k])
  {
    var allRuns := profile.bestRuns + profile.alternateRuns;
    assert allRuns == AllRuns(profile);
    var timings := EmptyDungeonTimings(catalog);
    warnings := [];
    var i := 0;
    assert allRuns[i..] == allRuns && allRuns[..i] == [];
    while i < |allRuns|
      invariant 0 <= i <= |allRuns|
      invariant ImportProgress(catalog, allRuns, i, timings, warnings)
    {
      var run := allRuns[i];
      var week := WeekFromAffixes(run.affixes);
      var dungeon := run.shortName;
      if dungeon !in timings {
        FoldAt(timings, allRuns, i);
        res := Err(UnknownDungeon(dungeon));
        assert allRuns[i].shortName !in ShortSet(catalog);
        return;
      }
      ghost var before, warned := timings, warnings;
      if timings[dungeon].Get(week).score < run.score {
        timings := timings[dungeon := timings[dungeon].Set(week, EntryOf(run))];
      }
      var expected := Plus1(catalog, dungeon);
      if run.parTimeMs != expected {
        warnings := warnings + [TimerMismatch(dungeon, week, expected, run.parTimeMs)];
      }
      RunImportStep(catalog, allRuns, i, before, timings, warned, warnings);
      i := i + 1;
    }
    assert allRuns[..i] == allRuns;
    res := Ok(ImportData(timings, profile.characterInfo));
  }

  // ---------------------------------------------------------------------
  // Properties of the selection

  /** runs[i] is the first run of slot (d, w) to reach the highest score
      among the slot's runs, and that score beats `base`. */
  predicate FirstBest(runs: seq<Run>, i: int, d: string, w: Week, base: int) {
    && 0 <= i < |runs| && InSlot(runs[i], d, w) && base < runs[i].score
    && (forall j :: 0 <= j < |runs| && InSlot(runs[j], d, w) ==> runs[j].score <= runs[i].score)
    && (forall j :: 0 <= j < i && InSlot(runs[j], d, w) ==> runs[j].score < runs[i].score)
  }

  /** No run of slot (d, w) has a score above `base`. */
  predicate NoneAbove(runs: seq<Run>, d: string, w: Week, base: int) {
    forall j :: 0 <= j < |runs| && InSlot(runs[j], d, w) ==> runs[j].score <= base
  }

  /** What one slot holds after the fold: its starting entry when no run of
      the slot beats the starting score, and otherwise the entry of the
      FIRST run of the slot that reached the highest score (ties keep the
      earlier run). */
  lemma {:induction false} FoldSlot(t: Table, runs: seq<Run>, d: string, w: Week)
    requires d in t && Fold(t, runs).Ok?
    ensures var final := Fold(t, runs).value[d].Get(w);
            || (final == t[d].Get(w) && NoneAbove(runs, d, w, t[d].Get(w).score))
            || exists i :: FirstBest(runs, i, d, w, t[d].Get(w).score) && final == EntryOf(runs[i])
    decreases |runs|
  {
    if runs != [] {
      FoldFirst(t, runs);
      var next := Step(t, runs[0]).value;
      var rest := runs[1..];
      StepSlot(t, runs[0], d, w);
      FoldSlot(next, rest, d, w);
      var final := Fold(next, rest).value[d].Get(w);
      var before := t[d].Get(w);
      var mid := next[d].Get(w);
      if final == mid && NoneAbove(rest, d, w, mid.score) {
        if mid == before {
          NoneAboveCons(runs, d, w, before.score);
        } else {
          FirstBestAtHead(runs, d, w, before.score);
        }
      } else {
        var i' :| FirstBest(rest, i', d, w, mid.score) && final == EntryOf(rest[i']);
        FirstBestCons(runs, i', d, w, mid.score, before.score);
      }
    }
  }

  lemma NoneAboveCons(runs: seq<Run>, d: string, w: Week, base: int)
    requires runs != [] && NoneAbove(runs[1..], d, w, base)
    requires InSlot(runs[0], d, w) ==> runs[0].score <= base
    ensures NoneAbove(runs, d, w, base)
  {
    assert forall j :: 1 <= j < |runs| ==> runs[j] == runs[1..][j - 1];
  }

  lemma FirstBestAtHead(runs: seq<Run>, d: string, w: Week, base: int)
    requires runs != [] && InSlot(runs[0], d, w) && base < runs[0].score
    requires NoneAbove(runs[1..], d, w, runs[0].score)
    ensures FirstBest(runs, 0, d, w, base)
  {
    assert forall j :: 1 <= j < |runs| ==> runs[j] == runs[1..][j - 1];
  }

  lemma FirstBestCons(runs: seq<Run>, i: int, d: string, w: Week, mid: int, base: int)
    requires runs != [] && FirstBest(runs[1..], i, d, w, mid) && base <= mid
    requires InSlot(runs[0], d, w) ==> runs[0].score <= mid
    ensures FirstBest(runs, i + 1, d, w, base)
  {
    assert forall j :: 1 <= j < |runs| ==> runs[j] == runs[1..][j - 1];
  }

  /** Every selected slot is complete and maximal: it holds at least every
      score of a run that classifies into it, and it is either the zero
      entry or the entry of one of those runs, whose score is positive. */
  lemma SelectionSlot(catalog: Catalog, runs: seq<Run>, d: string, w: Week)
    requires d in ShortSet(catalog) && Selection(catalog, runs).Ok?
    ensures d in Selection(catalog, runs).value
    ensures forall j :: 0 <= j < |runs| && InSlot(runs[j], d, w) ==>
                          runs[j].score <= Selection(catalog, runs).value[d].Get(w).score
    ensures || Selection(catalog, runs).value[d].Get(w) == ZeroEntry
            || exists i :: && 0 <= i < |runs| && InSlot(runs[i], d, w) && 0 < runs[i].score
                           && Selection(catalog, runs).value[d].Get(w) == EntryOf(runs[i])
  {
    var final := Selection(catalog, runs).value[d].Get(w);
    FoldSlot(EmptyDungeonTimings(catalog), runs, d, w);
    if final != ZeroEntry {
      var i :| FirstBest(runs, i, d, w, 0) && final == EntryOf(runs[i]);
    }
  }

  /** A table holds no more and no fewer dungeons after the fold; a run of a
      dungeon it lacks makes the fold fail with that dungeon's name, at the
      first such run. */
  lemma {:induction false} FoldFailsAtFirstUnknown(t: Table, runs: seq<Run>, k: nat)
    requires k < |runs| && runs[k].shortName !in t
    requires forall j :: 0 <= j < k ==> runs[j].shortName in t
    ensures Fold(t, runs) == Err(UnknownDungeon(runs[k].shortName))
    decreases k
  {
    if k > 0 {
      var next := Step(t, runs[0]).value;
      assert runs[1..][k - 1] == runs[k];
      assert forall j :: 0 <= j < k - 1 ==> runs[1..][j] == runs[j + 1];
      FoldFailsAtFirstUnknown(next, runs[1..], k - 1);
    }
  }

  /** Ties keep the first run: a later run of the same slot whose score is
      not higher than the selected one changes nothing. */
  lemma NoReplacementOnTie(t: Table, a: Run, b: Run)
    requires a.shortName in t
    requires InSlot(b, a.shortName, WeekFromAffixes(a.affixes)) && b.score <= a.score
    ensures Fold(t, [a, b]) == Fold(t, [a])
  {
    assert [a, b][1..] == [b] && [a][1..] == [];
    var next := Step(t, a).value;
    StepSlot(next, b, a.shortName, WeekFromAffixes(a.affixes));
    assert Step(next, b) == Ok(next);
    FoldFirst(t, [a, b]);
    FoldFirst(t, [a]);
    FoldFirst(next, [b]);
  }

  /** A run with a non-positive score never replaces the zero entry. */
  lemma NonPositiveScoresKeepZero(catalog: Catalog, runs: seq<Run>, d: string, w: Week)
    requires d in ShortSet(catalog) && Selection(catalog, runs).Ok?
    requires forall j :: 0 <= j < |runs| && InSlot(runs[j], d, w) ==> runs[j].score <= 0
    ensures Selection(catalog, runs).value[d].Get(w) == ZeroEntry
  {
    FoldSlot(EmptyDungeonTimings(catalog), runs, d, w);
  }

  /** A slot no run classifies into keeps its starting entry. */
  lemma UntouchedSlotUnchanged(t: Table, runs: seq<Run>, d: string, w: Week)
    requires d in t && Fold(t, runs).Ok?
    requires forall j :: 0 <= j < |runs| ==> !InSlot(runs[j], d, w)
    ensures Fold(t, runs).value[d].Get(w) == t[d].Get(w)
  {
    FoldSlot(t, runs, d, w);
  }

  /** Iteration order only matters through the tie rule: two runs whose
      scores differ, or which fall in different slots, may be swapped. */
  lemma SwapWithoutTie(t: Table, a: Run, b: Run)
    requires a.shortName in t && b.shortName in t
    requires a.score != b.score || a.shortName != b.shortName
             || WeekFromAffixes(a.affixes) != WeekFromAffixes(b.affixes)
    ensures Fold(t, [a, b]) == Fold(t, [b, a])
  {
    assert [a, b][1..] == [b] && [b, a][1..] == [a];
    var ta := Step(t, a).value;
    var tb := Step(t, b).value;
    var tab := Step(ta, b).value;
    var tba := Step(tb, a).value;
    FoldFirst(t, [a, b]);
    FoldFirst(t, [b, a]);
    FoldFirst(ta, [b]);
    FoldFirst(tb, [a]);
    assert [a][1..] == [] && [b][1..] == [];
    assert Fold(t, [a, b]) == Ok(tab) && Fold(t, [b, a]) == Ok(tba);
    assert tab.Keys == tba.Keys;
    forall d | d in tab ensures tab[d] == tba[d] {
      SwapSlot(t, a, b, d, Tyrannical);
      SwapSlot(t, a, b, d, Fortified);
    }
    assert tab == tba;
  }

  lemma SwapSlot(t: Table, a: Run, b: Run, d: string, w: Week)
    requires a.shortName in t && b.shortName in t && d in t
    requires a.score != b.score || a.shortName != b.shortName
             || WeekFromAffixes(a.affixes) != WeekFromAffixes(b.affixes)
    ensures Step(Step(t, a).value, b).value[d].Get(w) == Step(Step(t, b).value, a).value[d].Get(w)
  {
    var ta := Step(t, a).value;
    var tb := Step(t, b).value;
    StepSlot(t, a, d, w);
    StepSlot(t, b, d, w);
    StepSlot(ta, b, d, w);
    StepSlot(tb, a, d, w);
  }

  /** The par times of the catalog play no part in the selection: only its
      dungeon names do. */
  lemma SelectionIgnoresParTimes(c1: Catalog, c2: Catalog, runs: seq<Run>)
    requires ShortSet(c1) == ShortSet(c2)
    ensures Selection(c1, runs) == Selection(c2, runs)
  {
    var e1 := EmptyDungeonTimings(c1);
    var e2 := EmptyDungeonTimings(c2);
    assert forall d :: d in e1 ==> e1[d] == e2[d];
    assert e1 == e2;
  }

  /** `run` has a par time other than the catalog's and `m` is its warning. */
  predicate WarnsAbout(catalog: Catalog, run: Run, m: TimerMismatch)
    requires run.shortName in ShortSet(catalog)
  {
    && run.parTimeMs != Plus1(catalog, run.shortName)
    && m == TimerMismatch(run.shortName, WeekFromAffixes(run.affixes), Plus1(catalog, run.shortName), run.parTimeMs)
  }

  /** Every warning is about some run whose par time differs from the
      catalog's. */
  lemma {:induction false} TimerWarningsSound(catalog: Catalog, runs: seq<Run>, m: TimerMismatch)
    requires AllKnown(catalog, runs) && m in TimerWarnings(catalog, runs)
    ensures exists i :: 0 <= i < |runs| && WarnsAbout(catalog, runs[i], m)
    decreases |runs|
  {
    var n := |runs| - 1;
    var init := runs[..n];
    assert forall i :: 0 <= i < n ==> init[i] == runs[i];
    if m in TimerWarnings(catalog, init) {
      TimerWarningsSound(catalog, init, m);
      var i :| 0 <= i < n && WarnsAbout(catalog, init[i], m);
      assert WarnsAbout(catalog, runs[i], m);
    } else {
      assert WarnsAbout(catalog, runs[n], m);
    }
  }

  /** Every run whose par time differs from the catalog's is warned about. */
  lemma {:induction false} TimerWarningsComplete(catalog: Catalog, runs: seq<Run>, i: nat, m: TimerMismatch)
    requires AllKnown(catalog, runs) && i < |runs| && WarnsAbout(catalog, runs[i], m)
    ensures m in TimerWarnings(catalog, runs)
    decreases |runs|
  {
    var n := |runs| - 1;
    var init := runs[..n];
    assert forall j :: 0 <= j < n ==> init[j] == runs[j];
    if i < n {
      TimerWarningsComplete(catalog, init, i, m);
    }
  }

  /** Exactly the runs whose par time differs from the catalog's produce a
      warning, with the catalog's value as expected and the run's as actual. */
  lemma TimerWarningsExact(catalog: Catalog, runs: seq<Run>, m: TimerMismatch)
    requires AllKnown(catalog, runs)
    ensures m in TimerWarnings(catalog, runs) <==>
              exists i :: 0 <= i < |runs| && WarnsAbout(catalog, runs[i], m)
  {
    if m in TimerWarnings(catalog, runs) {
      TimerWarningsSound(catalog, runs, m);
    }
    if exists i :: 0 <= i < |runs| && WarnsAbout(catalog, runs[i], m) {
      var i :| 0 <= i < |runs| && WarnsAbout(catalog, runs[i], m);
      TimerWarningsComplete(catalog, runs, i, m);
    }
  }
}
