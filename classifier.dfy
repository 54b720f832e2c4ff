/** The weekly-modifier classifier (`getWeekFromAffixesList`). */
module Classifier {
  import opened Domain

  predicate HasAffix(affixes: seq<Affix>, id: int) {
    exists i :: 0 <= i < |affixes| && affixes[i].id == id
  }

  /** `affixes.find(affix => affix.id === id)`: the first affix with that id. */
  function FindAffix(affixes: seq<Affix>, id: int): (r: Option<Affix>)
    ensures r.Some? <==> HasAffix(affixes, id)
    ensures r.Some? ==> exists i :: 0 <= i < |affixes| && affixes[i] == r.value && r.value.id == id
                                    && forall j :: 0 <= j < i ==> affixes[j].id != id
  {
    if affixes == [] then None
    else if affixes[0].id == id then Some(affixes[0])
    else
      var r := FindAffix(affixes[1..], id);
      assert forall i :: 1 <= i < |affixes| ==> affixes[i] == affixes[1..][i - 1];
      r
  }

  /** The weekly modifier of a run: Tyrannical when affix 9 is present;
      otherwise Fortified, with or without affix 10. */
  function WeekFromAffixes(affixes: seq<Affix>): (w: Week)
    ensures w == Tyrannical <==> HasAffix(affixes, 9)
    ensures w == Fortified <==> !HasAffix(affixes, 9)
  {
    if FindAffix(affixes, 9).Some? then Tyrannical
    else if FindAffix(affixes, 10).Some? then Fortified
    else Fortified
  }

  /** Only affix 9 decides: two lists that agree on it classify alike,
      whatever else (affix 10 included) they hold. */
  lemma OnlyNineDecides(a: seq<Affix>, b: seq<Affix>)
    requires HasAffix(a, 9) <==> HasAffix(b, 9)
    ensures WeekFromAffixes(a) == WeekFromAffixes(b)
  {
  }
}
