/** The `useRaiderIoImport` store: the `loading` / `error` flags,
    `dismissError` and the `importCharacter` pipeline (fetch, select,
    archive, merge, cross-check). */
module Import {
  import opened Domain
  import opened BestRuns
  import opened Scores
  import opened Store

  /** What the fetch and the decoding of its JSON body gave: either a
      profile or a failure (network error, bad status, undecodable body). */
  datatype FetchOutcome = FetchFailed | Fetched(profile: Profile)

  /** The import succeeds: the fetch succeeded, every run names a catalog
      dungeon and the history archive accepted the character. */
  predicate Succeeds(catalog: Catalog, fetched: FetchOutcome, archiveAccepts: bool) {
    fetched.Fetched? && Selection(catalog, AllRuns(fetched.profile)).Ok? && archiveAccepts
  }

  class ImportStatus {
    var loading: bool
    var error: bool

    constructor ()
      ensures !loading && !error
    {
      loading := false;
      error := false;
    }

    /** `dismissError`: only a raised error is dismissed, and dismissing it
        clears `loading` too. */
    method DismissError()
      modifies this
      ensures old(error) ==> !loading && !error
      ensures !old(error) ==> loading == old(loading) && error == old(error)
    {
      if error {
        loading := false;
        error := false;
      }
    }

    /** `importCharacter`. The fetch is given by its outcome and the
        history archive's acceptance of the write by `archiveAccepts`;
        `originalScores` is what the store calculates for each slot, as
        the score check reads it after the merge, and `equals` is the score
        type's equality.
        On any failure `error` is raised and `loading` stays raised; the
        archive is written before the store, so a failure leaves both
        untouched. On success `loading` is cleared, `error` is left as it
        was, the character is archived and both timing tables hold, for
        every catalog dungeon and weekly modifier, the selected entry
        without its score: a function of the fetched runs alone, so
        importing the same payload again yields the same tables. */
    method ImportCharacter<S>(catalog: Catalog, fetched: FetchOutcome, archiveAccepts: bool,
                              playerData: PlayerData, history: CharacterHistory,
                              originalScores: map<string, ByWeek<S>>, equals: (S, int) -> bool)
      returns (timerWarnings: seq<TimerMismatch>, scoreWarnings: seq<ScoreMismatch<S>>)
      requires ShortSet(catalog) <= playerData.originalTimes.Keys
      requires ShortSet(catalog) <= playerData.hypotheticalTimes.Keys
      requires ShortSet(catalog) <= originalScores.Keys
      modifies this, playerData, history
      ensures !Succeeds(catalog, fetched, archiveAccepts) ==>
                && loading && error
                && unchanged(playerData) && unchanged(history)
                && scoreWarnings == []
      ensures Succeeds(catalog, fetched, archiveAccepts) ==>
                var table := Selection(catalog, AllRuns(fetched.profile)).value;
                && !loading && error == old(error)
                && history.entries == old(history.entries) + [fetched.profile.characterInfo]
                && playerData.originalTimes.Keys == old(playerData.originalTimes.Keys)
                && playerData.hypotheticalTimes.Keys == old(playerData.hypotheticalTimes.Keys)
                && (forall d, w :: d in ShortSet(catalog) ==>
                                     && playerData.originalTimes[d].Get(w) == table[d].Get(w).WithoutScore()
                                     && playerData.hypotheticalTimes[d].Get(w) == table[d].Get(w).WithoutScore())
                && (forall d :: d in old(playerData.originalTimes) && d !in ShortSet(catalog) ==>
                                  playerData.originalTimes[d] == old(playerData.originalTimes[d]))
                && (forall d :: d in old(playerData.hypotheticalTimes) && d !in ShortSet(catalog) ==>
                                  playerData.hypotheticalTimes[d] == old(playerData.hypotheticalTimes[d]))
                && playerData.characterInfo == (if catalog == [] then old(playerData.characterInfo)
                                                else Some(fetched.profile.characterInfo))
                && AllKnown(catalog, AllRuns(fetched.profile))
                && timerWarnings == TimerWarnings(catalog, AllRuns(fetched.profile))
                && scoreWarnings == ScoreMismatches(catalog, table, originalScores, equals)
    {
      timerWarnings, scoreWarnings := [], [];
      loading := true;
      if fetched.FetchFailed? {
        error := true;
        return;
      }
      var data;
      data, timerWarnings := RunImport(catalog, fetched.profile);
      if data.Err? {
        error := true;
        return;
      }
      if !archiveAccepts {
        error := true;
        return;
      }
      history.Save(data.value.characterInfo);
      assert catalog != [] ==> catalog[0].shortName in data.value.timings;
      playerData.ApplyImport(data.value.timings, data.value.characterInfo);
      var ignored;
      scoreWarnings, ignored := CheckScores(catalog, data.value.timings, originalScores, equals);
      loading := false;
    }
  }
}
