/**
  Haste arithmetic: the summoner-spell and ultimate haste bonuses granted by a
  few fixed items and one rune, and the cooldown formula `base / (1 + haste / 100)`.
*/
module HasteCalculator {

  const IonianBootsId: int := 3158
  const IonianBootsSummonerHaste: int := 12

  const CosmicInsightId: int := 8347
  const CosmicInsightSummonerHaste: int := 18

  const ExperimentalHexplateId: int := 3084
  const ExperimentalHexplateUltimateHaste: int := 30

  const MalignanceId: int := 3118
  const MalignanceUltimateHaste: int := 20

  /**
    Summoner spell haste: 12 for Ionian Boots among the items, 18 for Cosmic Insight
    among the runes. Only membership is tested, so the result reads back which of the two is owned.
  */
  function SummonerSpellHaste(items: seq<int>, runes: seq<int>): (total: int)
    ensures total in {0, 12, 18, 30}
    ensures (total == 12 || total == 30) <==> IonianBootsId in items
    ensures total >= 18 <==> CosmicInsightId in runes
  {
    (if IonianBootsId in items then IonianBootsSummonerHaste else 0)
    + (if CosmicInsightId in runes then CosmicInsightSummonerHaste else 0)
  }

  /**
    Extra ultimate haste from items: 30 for Experimental Hexplate, 20 for Malignance.
    The champion's ability haste is accepted and ignored.
  */
  function UltimateHaste(abilityHaste: real, items: seq<int>): (total: int)
    ensures total in {0, 20, 30, 50}
    ensures total >= 30 <==> ExperimentalHexplateId in items
    ensures (total == 20 || total == 50) <==> MalignanceId in items
  {
    (if ExperimentalHexplateId in items then ExperimentalHexplateUltimateHaste else 0)
    + (if MalignanceId in items then MalignanceUltimateHaste else 0)
  }

  /** Two lists with the same elements agree on membership. */
  lemma SameElementsSameMembership(a: seq<int>, b: seq<int>, k: int)
    requires (set i | i in a) == (set i | i in b)
    ensures k in a <==> k in b
  {
    var sa, sb := set i | i in a, set i | i in b;
    assert k in a ==> k in sa;
    assert k in b ==> k in sb;
    assert k in sa ==> k in a;
    assert k in sb ==> k in b;
  }

  /** Only the SET of item and rune ids matters: order and repetitions do not. */
  lemma SummonerSpellHasteBySet(items1: seq<int>, runes1: seq<int>, items2: seq<int>, runes2: seq<int>)
    requires (set i | i in items1) == (set i | i in items2)
    requires (set r | r in runes1) == (set r | r in runes2)
    ensures SummonerSpellHaste(items1, runes1) == SummonerSpellHaste(items2, runes2)
  {
    SameElementsSameMembership(items1, items2, IonianBootsId);
    SameElementsSameMembership(runes1, runes2, CosmicInsightId);
  }

  /** The rune id counts only among the runes, the boots id only among the items. */
  lemma SummonerSpellHasteIgnoresMisplacedIds(items: seq<int>, runes: seq<int>)
    ensures SummonerSpellHaste(items + [CosmicInsightId], runes) == SummonerSpellHaste(items, runes)
    ensures SummonerSpellHaste(items, runes + [IonianBootsId]) == SummonerSpellHaste(items, runes)
  {
  }

  /** The ability haste argument is ignored, and only the set of item ids matters. */
  lemma UltimateHasteBySet(a1: real, items1: seq<int>, a2: real, items2: seq<int>)
    requires (set i | i in items1) == (set i | i in items2)
    ensures UltimateHaste(a1, items1) == UltimateHaste(a2, items2)
  {
    SameElementsSameMembership(items1, items2, ExperimentalHexplateId);
    SameElementsSameMembership(items1, items2, MalignanceId);
  }

  /** The divisor of the haste formula for a positive haste. */
  function HasteDivisor(haste: int): (d: real)
    requires haste > 0
    ensures d > 1.0
  {
    1.0 + haste as real / 100.0
  }

  /** `base / (1 + haste / 100)`; a haste of 0 or below leaves the cooldown as it is. */
  function ApplyHaste(base: real, haste: int): (cooldown: real)
    ensures haste <= 0 ==> cooldown == base
    ensures haste > 0 ==> cooldown * HasteDivisor(haste) == base
  {
    if haste <= 0 then base else base / HasteDivisor(haste)
  }

  /** 100 haste halves the cooldown. */
  lemma ApplyHasteHundredHalves(base: real)
    ensures ApplyHaste(base, 100) == base / 2.0
  {
    assert HasteDivisor(100) == 2.0;
  }

  /** Haste never lengthens a cooldown and never makes it negative; a positive one strictly shortens a positive cooldown. */
  lemma ApplyHasteBounds(base: real, haste: int)
    requires base >= 0.0
    ensures 0.0 <= ApplyHaste(base, haste) <= base
    ensures base > 0.0 && haste > 0 ==> ApplyHaste(base, haste) < base
  {
    if haste > 0 {
      var d := HasteDivisor(haste);
      var r := base / d;
      assert r * d == base;
      assert r >= 0.0;
      assert r <= r * d;
      if base > 0.0 {
        assert r > 0.0;
        assert r < r * d;
      }
    }
  }

  lemma DivideByLarger(base: real, d1: real, d2: real)
    requires base >= 0.0 && 0.0 < d1 <= d2
    ensures base / d2 <= base / d1
    ensures base > 0.0 && d1 < d2 ==> base / d2 < base / d1
  {
    var q1, q2 := base / d1, base / d2;
    assert q1 * d1 == base && q2 * d2 == base;
    assert q2 >= 0.0;
    assert q2 * d1 <= q2 * d2;
    if base > 0.0 && d1 < d2 {
      assert q2 > 0.0;
      assert q2 * d1 < q2 * d2;
    }
  }

  /** More haste never means a longer cooldown, and for positive values strictly a shorter one. */
  lemma ApplyHasteAntitone(base: real, h1: int, h2: int)
    requires base >= 0.0 && h1 <= h2
    ensures ApplyHaste(base, h2) <= ApplyHaste(base, h1)
    ensures base > 0.0 && 0 < h1 < h2 ==> ApplyHaste(base, h2) < ApplyHaste(base, h1)
  {
    if h2 > 0 {
      if h1 > 0 {
        DivideByLarger(base, HasteDivisor(h1), HasteDivisor(h2));
      } else {
        ApplyHasteBounds(base, h2);
      }
    }
  }
}
