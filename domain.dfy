/** Shared vocabulary of the Raider.IO import: weekly modifiers, runs, timing
    entries, the dungeon catalog and the diagnostics the import reports. */
module Domain {

  datatype Option<T> = None | Some(value: T)

  /** The two weekly modifiers; a run's modifier is derived from its affixes. */
  datatype Week = Tyrannical | Fortified

  /** A record with one value per weekly modifier, in the key order of the
      source's records (Tyrannical first). */
  datatype ByWeek<T> = ByWeek(tyrannical: T, fortified: T) {

    function Get(w: Week): T {
      match w
      case Tyrannical => tyrannical
      case Fortified => fortified
    }

    /** The record with the value for `w` replaced and the other one kept. */
    function Set(w: Week, v: T): (r: ByWeek<T>)
      ensures r.Get(w) == v
      ensures forall w' :: w' != w ==> r.Get(w') == Get(w')
    {
      match w
      case Tyrannical => ByWeek(v, fortified)
      case Fortified => ByWeek(tyrannical, v)
    }
  }

  /** One entry of a run's `affixes` list. */
  datatype Affix = Affix(id: int)

  /** One element of `mythic_plus_best_runs` or `mythic_plus_alternate_runs`.
      Scores are modelled as integers: they are only ever compared. */
  datatype Run = Run(
    shortName: string,
    affixes: seq<Affix>,
    mythicLevel: int,
    keystoneUpgrades: int,
    clearTimeMs: int,
    parTimeMs: int,
    score: int)

  /** A stored timing entry of the player store. */
  datatype Timing = Timing(level: int, plus: int, duration: int)

  /** A timing entry with the score used while selecting the best run. */
  datatype ScoredTiming = ScoredTiming(level: int, plus: int, duration: int, score: int) {
    /** The entry as the store keeps it: the score is dropped. */
    function WithoutScore(): Timing {
      Timing(level, plus, duration)
    }
  }

  const ZeroEntry: ScoredTiming := ScoredTiming(0, 0, 0, 0)

  /** Per dungeon short name, the best scored entry for each weekly modifier. */
  type Table = map<string, ByWeek<ScoredTiming>>

  /** Who is being imported; copied field by field from the fetched profile. */
  datatype CharacterInfo = CharacterInfo(
    region: string,
    realm: string,
    name: string,
    characterClass: string,
    spec: string,
    thumbnailUrl: string,
    guildName: Option<string>)

  /** One dungeon of the catalog: its short name and its "plus one" par time. */
  datatype Dungeon = Dungeon(shortName: string, plus1: int)

  /** The dungeon catalog, in the key order of the catalog object. */
  type Catalog = seq<Dungeon>

  function ShortSet(catalog: Catalog): set<string> {
    if catalog == [] then {} else {catalog[0].shortName} + ShortSet(catalog[1..])
  }

  /** The par time of dungeon `short`, as looking it up in the catalog gives it. */
  function Plus1(catalog: Catalog, short: string): (p: int)
    requires short in ShortSet(catalog)
    ensures exists i :: 0 <= i < |catalog| && catalog[i].shortName == short && catalog[i].plus1 == p
  {
    if catalog[0].shortName == short then catalog[0].plus1
    else
      var p := Plus1(catalog[1..], short);
      assert catalog[1..][0] == catalog[1];
      p
  }

  datatype ImportError = UnknownDungeon(shortName: string)

  datatype Result<T> = Ok(value: T) | Err(error: ImportError)

  /** The "Timer mismatch" warning: the catalog's par time and the run's. */
  datatype TimerMismatch = TimerMismatch(dungeon: string, week: Week, expected: int, actual: int)

  /** The "Score mismatch" warning: the score reported by Raider.IO and the
      locally calculated base score (a value of the store's score type). */
  datatype ScoreMismatch<S> = ScoreMismatch(dungeon: string, week: Week, expected: int, calculated: S)
}
