/**
  The game auto-loader: champion and spell name normalisation, parsing of the
  enemy roster, and the edge-triggered reaction of one monitor-loop pass to the
  "is a game running" probe. The probe result, the game snapshot and the champion
  list are arguments; the start/end callbacks are recorded in an event log.
*/
module AutoLoader {
  import opened Wrappers
  import opened Text
  import opened LiveClient

  /** One parsed enemy: champion name and the two spell ids. */
  datatype Entry = Entry(champion: string, spell1: string, spell2: string)

  /** A call of one of the loader's callbacks. */
  datatype Event = GameStart(roster: seq<Entry>) | GameEnd

  /** The key names are compared by: lower case, without apostrophes, periods, spaces and ampersands. */
  function MatchKey(name: string): (key: string)
    ensures IsLower(key)
    ensures '\'' !in key && '.' !in key && ' ' !in key && '&' !in key
    ensures forall c :: c !in {'\'', '.', ' ', '&'} ==> (c in key <==> c in Lower(name))
  {
    var lower := Lower(name);
    var k1 := Remove(lower, '\'');
    RemoveKeepsLower(lower, '\'');
    var k2 := Remove(k1, '.');
    RemoveKeepsLower(k1, '.');
    var k3 := Remove(k2, ' ');
    RemoveKeepsLower(k2, ' ');
    RemoveKeepsLower(k3, '&');
    Remove(k3, '&')
  }

  /** Keys are built piecewise. */
  lemma MatchKeyAppend(a: string, b: string)
    ensures MatchKey(a + b) == MatchKey(a) + MatchKey(b)
  {
    LowerAppend(a, b);
    var la, lb := Lower(a), Lower(b);
    RemoveAppend(la, lb, '\'');
    var a1, b1 := Remove(la, '\''), Remove(lb, '\'');
    RemoveAppend(a1, b1, '.');
    var a2, b2 := Remove(a1, '.'), Remove(b1, '.');
    RemoveAppend(a2, b2, ' ');
    var a3, b3 := Remove(a2, ' '), Remove(b2, ' ');
    RemoveAppend(a3, b3, '&');
  }

  /**
    Matching ignores case and the four punctuation characters: lower-casing the
    name, or dropping an apostrophe, period, space or ampersand anywhere in it,
    leaves its key unchanged.
  */
  lemma MatchKeyInsensitive(name: string, a: string, c: char, b: string)
    requires c in {'\'', '.', ' ', '&'}
    ensures MatchKey(Lower(name)) == MatchKey(name)
    ensures MatchKey(a + [c] + b) == MatchKey(a + b)
  {
    LowerIdempotent(name);
    MatchKeyAppend(a + [c], b);
    MatchKeyAppend(a, [c]);
    MatchKeyAppend(a, b);
    assert MatchKey([c]) == [] by {
      var k := MatchKey([c]);
      assert forall d :: d in k ==> d in Lower([c]) && d != c;
    }
    assert MatchKey(a) + [] == MatchKey(a);
  }

  /** The first known champion with the same key as `apiName`. */
  function FirstMatch(key: string, champions: seq<string>): (found: Option<string>)
    ensures found.Some? ==> found.value in champions && MatchKey(found.value) == key
  {
    if champions == [] then None
    else if MatchKey(champions[0]) == key then Some(champions[0])
    else FirstMatch(key, champions[1..])
  }

  /** `_normalize_champion_name`: the known spelling of a champion, or the name itself when none matches. */
  function NormalizedChampion(apiName: string, champions: seq<string>): string {
    FirstMatch(MatchKey(apiName), champions).GetOr(apiName)
  }

  method NormalizeChampionName(apiName: string, champions: seq<string>) returns (name: string)
    ensures name == NormalizedChampion(apiName, champions)
  {
    for i := 0 to |champions|
      invariant FirstMatch(MatchKey(apiName), champions[i..]) == FirstMatch(MatchKey(apiName), champions)
    {
      assert champions[i..][1..] == champions[i + 1..];
      if MatchKey(champions[i]) == MatchKey(apiName) {
        return champions[i];
      }
    }
    return apiName;
  }

  /** The first match wins; with no match the name passes through. */
  lemma {:induction false} FirstMatchIsFirst(key: string, champions: seq<string>)
    ensures (forall i :: 0 <= i < |champions| ==> MatchKey(champions[i]) != key) <==> FirstMatch(key, champions).None?
    ensures forall i :: 0 <= i < |champions| && MatchKey(champions[i]) == key &&
              (forall j :: 0 <= j < i ==> MatchKey(champions[j]) != key)
              ==> FirstMatch(key, champions) == Some(champions[i])
  {
    if champions != [] {
      FirstMatchIsFirst(key, champions[1..]);
      forall i | 0 <= i < |champions| && MatchKey(champions[i]) == key &&
                 (forall j :: 0 <= j < i ==> MatchKey(champions[j]) != key)
        ensures FirstMatch(key, champions) == Some(champions[i])
      {
        if i > 0 {
          assert champions[1..][i - 1] == champions[i];
          forall j | 0 <= j < i - 1 ensures MatchKey(champions[1..][j]) != key {
            assert champions[1..][j] == champions[j + 1];
          }
        }
      }
      if forall i :: 0 <= i < |champions| ==> MatchKey(champions[i]) != key {
        forall j | 0 <= j < |champions[1..]| ensures MatchKey(champions[1..][j]) != key {
          assert champions[1..][j] == champions[j + 1];
        }
      } else {
        var i :| 0 <= i < |champions| && MatchKey(champions[i]) == key;
        if i > 0 {
          assert champions[1..][i - 1] == champions[i];
        }
      }
    }
  }

  /** Normalising twice is normalising once. */
  lemma NormalizeChampionIdempotent(apiName: string, champions: seq<string>)
    ensures NormalizedChampion(NormalizedChampion(apiName, champions), champions) == NormalizedChampion(apiName, champions)
  {
    var found := FirstMatch(MatchKey(apiName), champions);
    if found.Some? {
      assert MatchKey(found.value) == MatchKey(apiName);
    }
  }

  /** The normalised name is a known champion with the same key, or the input when there is none. */
  lemma NormalizedChampionMeaning(apiName: string, champions: seq<string>)
    ensures var name := NormalizedChampion(apiName, champions);
      || (name in champions && MatchKey(name) == MatchKey(apiName))
      || (name == apiName && forall c :: c in champions ==> MatchKey(c) != MatchKey(apiName))
  {
    FirstMatchIsFirst(MatchKey(apiName), champions);
  }

  /** Display name to spell id; a renamed Teleport maps to the same id. */
  const SpellAliases: map<string, string> := map[
    "Flash" := "flash",
    "Ignite" := "ignite",
    "Teleport" := "teleport",
    "Unleashed Teleport" := "teleport",
    "Heal" := "heal",
    "Barrier" := "barrier",
    "Exhaust" := "exhaust",
    "Smite" := "smite",
    "Ghost" := "ghost",
    "Cleanse" := "cleanse"]

  /** `_normalize_spell_name`: the table's id, or the lower-cased display name. Always lower case. */
  function NormalizeSpellName(displayName: string): (id: string)
    ensures IsLower(id)
    ensures displayName in SpellAliases ==> id == SpellAliases[displayName]
    ensures displayName !in SpellAliases ==> id == Lower(displayName)
  {
    if displayName in SpellAliases then SpellAliases[displayName] else Lower(displayName)
  }

  lemma TeleportAliases()
    ensures NormalizeSpellName("Teleport") == "teleport"
    ensures NormalizeSpellName("Unleashed Teleport") == "teleport"
  {
  }

  /** `summonerSpells.get(slot, {}).get("displayName", "")` */
  function SpellDisplayName(spells: Option<SummonerSpells>, first: bool): string {
    if spells.None? then ""
    else
      var info := if first then spells.value.summonerSpellOne else spells.value.summonerSpellTwo;
      if info.None? then "" else info.value.displayName.GetOr("")
  }

  /** The parsed form of one enemy player; missing fields read as "". */
  function ParseEntry(player: Player, champions: seq<string>): Entry {
    Entry(
      NormalizedChampion(player.championName.GetOr(""), champions),
      NormalizeSpellName(SpellDisplayName(player.summonerSpells, true)),
      NormalizeSpellName(SpellDisplayName(player.summonerSpells, false)))
  }

  /** The parsed roster: one entry per player, in the players' order. */
  function ParsedTeam(enemies: seq<Player>, champions: seq<string>): (parsed: seq<Entry>)
    ensures |parsed| == |enemies|
    ensures forall i :: 0 <= i < |enemies| ==> parsed[i] == ParseEntry(enemies[i], champions)
  {
    if enemies == [] then [] else [ParseEntry(enemies[0], champions)] + ParsedTeam(enemies[1..], champions)
  }

  /** `_parse_enemy_team` */
  method ParseEnemyTeam(enemies: seq<Player>, champions: seq<string>) returns (parsed: seq<Entry>)
    ensures parsed == ParsedTeam(enemies, champions)
  {
    parsed := [];
    for i := 0 to |enemies|
      invariant parsed == ParsedTeam(enemies[..i], champions)
    {
      var player := enemies[i];
      var champion := NormalizeChampionName(player.championName.GetOr(""), champions);
      var spell1 := NormalizeSpellName(SpellDisplayName(player.summonerSpells, true));
      var spell2 := NormalizeSpellName(SpellDisplayName(player.summonerSpells, false));
      parsed := parsed + [Entry(champion, spell1, spell2)];
      assert enemies[..i + 1] == enemies[..i] + [enemies[i]];
    }
    assert enemies[..|enemies|] == enemies;
  }

  /**
    One pass of the monitor loop, with `active` the previous probe's verdict:
    the new verdict and the callbacks fired. A rising probe fires the start
    callback (when set and the enemy team is non-empty), a falling one the end
    callback (when set), an unchanged one nothing.
  */
  function Step(active: bool, probe: bool, hasStart: bool, hasEnd: bool,
                enemies: seq<Player>, champions: seq<string>): (r: (bool, seq<Event>))
    ensures r.0 == probe
    ensures probe == active ==> r.1 == []
    ensures probe && !active ==>
      r.1 == if hasStart && |enemies| > 0 then [GameStart(ParsedTeam(enemies, champions))] else []
    ensures !probe && active ==> r.1 == if hasEnd then [GameEnd] else []
  {
    if probe && !active then
      (true, if |enemies| > 0 && hasStart then [GameStart(ParsedTeam(enemies, champions))] else [])
    else if !probe && active then
      (false, if hasEnd then [GameEnd] else [])
    else
      (active, [])
  }

  /** What one pass of the loop sees: the probe and the enemy team of the snapshot. */
  datatype Poll = Poll(probe: bool, enemies: seq<Player>)

  /** Consecutive passes of the loop: the final verdict and all callbacks, in order. */
  function Run(active: bool, hasStart: bool, hasEnd: bool, polls: seq<Poll>, champions: seq<string>): (bool, seq<Event>)
    decreases |polls|
  {
    if polls == [] then (active, [])
    else
      var (next, events) := Step(active, polls[0].probe, hasStart, hasEnd, polls[0].enemies, champions);
      var (final, later) := Run(next, hasStart, hasEnd, polls[1..], champions);
      (final, events + later)
  }

  /** Start and end events alternate in `events`, the first one being a start exactly when `startFirst`. */
  predicate Alternating(events: seq<Event>, startFirst: bool) {
    forall i :: 0 <= i < |events| ==> (events[i].GameStart? <==> ((i % 2 == 0) == startFirst))
  }

  /** One step of `Run`: the first poll's events, then the rest of the run from the new verdict. */
  lemma RunCons(active: bool, hasStart: bool, hasEnd: bool, polls: seq<Poll>, champions: seq<string>)
    requires polls != []
    ensures var step := Step(active, polls[0].probe, hasStart, hasEnd, polls[0].enemies, champions);
      var rest := Run(step.0, hasStart, hasEnd, polls[1..], champions);
      Run(active, hasStart, hasEnd, polls, champions) == (rest.0, step.1 + rest.1)
  {
  }

  lemma AlternatingCons(e: Event, later: seq<Event>, startFirst: bool)
    requires e.GameStart? == startFirst
    requires Alternating(later, !startFirst)
    ensures Alternating([e] + later, startFirst)
  {
    var events := [e] + later;
    forall i | 0 <= i < |events| ensures events[i].GameStart? <==> ((i % 2 == 0) == startFirst) {
      if i > 0 {
        assert events[i] == later[i - 1];
      }
    }
  }

  /**
    With both callbacks set and a non-empty enemy team whenever a game is seen,
    the callbacks alternate: start, end, start, ... from a loader that saw no game,
    or end, start, ... from one that did; the final verdict is the last probe, and
    an even number of callbacks fired exactly when the verdict is back where it began.
  */
  lemma {:induction false} RunAlternates(active: bool, polls: seq<Poll>, champions: seq<string>)
    requires forall i :: 0 <= i < |polls| && polls[i].probe ==> |polls[i].enemies| > 0
    ensures var (final, events) := Run(active, true, true, polls, champions);
      && Alternating(events, !active)
      && final == (if polls == [] then active else polls[|polls| - 1].probe)
      && |events| % 2 == (if final == active then 0 else 1)
    decreases |polls|
  {
    if polls != [] {
      var step := Step(active, polls[0].probe, true, true, polls[0].enemies, champions);
      var rest := Run(step.0, true, true, polls[1..], champions);
      RunCons(active, true, true, polls, champions);
      assert forall i :: 0 <= i < |polls[1..]| && polls[1..][i].probe ==> |polls[1..][i].enemies| > 0 by {
        forall i | 0 <= i < |polls[1..]| ensures polls[1..][i] == polls[i + 1] { }
      }
      RunAlternates(step.0, polls[1..], champions);
      if polls[1..] != [] {
        assert polls[1..][|polls[1..]| - 1] == polls[|polls| - 1];
      }
      StepEventsAlternate(active, step.0, step.1, rest.1, rest.0);
    }
  }

  /** The events of one pass, followed by an alternating run from its verdict, alternate from the old verdict. */
  lemma StepEventsAlternate(active: bool, next: bool, events: seq<Event>, later: seq<Event>, final: bool)
    requires next != active ==> |events| == 1 && events[0].GameStart? == !active
    requires next == active ==> events == []
    requires Alternating(later, !next)
    requires |later| % 2 == (if final == next then 0 else 1)
    ensures Alternating(events + later, !active)
    ensures |events + later| % 2 == (if final == active then 0 else 1)
  {
    if next != active {
      assert events == [events[0]];
      AlternatingCons(events[0], later, !active);
    } else {
      assert events + later == later;
    }
  }

  /** Probes true, true, false against a non-empty enemy team: one start, then one end. */
  lemma StartStayEnd(enemies: seq<Player>, champions: seq<string>)
    requires |enemies| > 0
    ensures Run(false, true, true, [Poll(true, enemies), Poll(true, enemies), Poll(false, enemies)], champions)
      == (false, [GameStart(ParsedTeam(enemies, champions)), GameEnd])
  {
    var last := [Poll(false, enemies)];
    RunCons(true, true, true, last, champions);
    assert last[1..] == [];
    assert Run(false, true, true, [], champions) == (false, []);
    assert [GameEnd] + [] == [GameEnd];
    assert Run(true, true, true, last, champions) == (false, [GameEnd]);
    var middle := [Poll(true, enemies)] + last;
    RunCons(true, true, true, middle, champions);
    assert middle[1..] == last;
    assert [] + [GameEnd] == [GameEnd];
    assert Run(true, true, true, middle, champions) == (false, [GameEnd]);
    var polls := [Poll(true, enemies)] + middle;
    RunCons(false, true, true, polls, champions);
    assert polls[1..] == middle;
    assert Step(false, true, true, true, enemies, champions) == (true, [GameStart(ParsedTeam(enemies, champions))]);
    assert [GameStart(ParsedTeam(enemies, champions))] + [GameEnd] == [GameStart(ParsedTeam(enemies, champions)), GameEnd];
    assert polls == [Poll(true, enemies), Poll(true, enemies), Poll(false, enemies)];
  }

  /** The loader: the previous probe's verdict, which callbacks are set, and the log of callback calls. */
  class GameAutoLoader {
    const pollInterval: real
    var gameActive: bool
    var hasOnGameStart: bool
    var hasOnGameEnd: bool
    var events: seq<Event>

    constructor (pollInterval: real)
      ensures this.pollInterval == pollInterval
      ensures !gameActive && !hasOnGameStart && !hasOnGameEnd && events == []
    {
      this.pollInterval := pollInterval;
      gameActive := false;
      hasOnGameStart := false;
      hasOnGameEnd := false;
      events := [];
    }

    /** Sets both callbacks at once; leaving one out clears it. */
    method SetCallbacks(onGameStart: bool, onGameEnd: bool)
      modifies this`hasOnGameStart, this`hasOnGameEnd
      ensures hasOnGameStart == onGameStart && hasOnGameEnd == onGameEnd
    {
      hasOnGameStart := onGameStart;
      hasOnGameEnd := onGameEnd;
    }

    /** `_handle_game_start`: records the game and reports the parsed enemy team, if there is one and someone listens. */
    method HandleGameStart(data: Option<GameData>, champions: seq<string>)
      modifies this`gameActive, this`events
      ensures gameActive
      ensures events == old(events) +
        if |EnemyTeam(data)| > 0 && hasOnGameStart then [GameStart(ParsedTeam(EnemyTeam(data), champions))] else []
    {
      gameActive := true;
      var enemies := EnemyTeam(data);
      if |enemies| > 0 && hasOnGameStart {
        var parsed := ParseEnemyTeam(enemies, champions);
        events := events + [GameStart(parsed)];
      }
    }

    /** `_handle_game_end` */
    method HandleGameEnd()
      modifies this`gameActive, this`events
      ensures !gameActive
      ensures events == old(events) + if hasOnGameEnd then [GameEnd] else []
    {
      gameActive := false;
      if hasOnGameEnd {
        events := events + [GameEnd];
      }
    }

    /** One pass of `_monitor_loop`, given the probe's answer and the snapshot fetched after it. */
    method Tick(probe: bool, data: Option<GameData>, champions: seq<string>)
      modifies this`gameActive, this`events
      ensures var (next, fired) := Step(old(gameActive), probe, hasOnGameStart, hasOnGameEnd, EnemyTeam(data), champions);
        gameActive == next && events == old(events) + fired
    {
      if probe && !gameActive {
        HandleGameStart(data, champions);
      } else if !probe && gameActive {
        HandleGameEnd();
      } else {
        assert events == old(events) + [];
      }
    }

    /** `force_reload`: re-reports the enemy team of a running game without touching the game flag. */
    method ForceReload(probe: bool, data: Option<GameData>, champions: seq<string>) returns (loaded: bool)
      modifies this`events
      ensures loaded <==> probe && |EnemyTeam(data)| > 0 && hasOnGameStart
      ensures events == old(events) + if loaded then [GameStart(ParsedTeam(EnemyTeam(data), champions))] else []
    {
      if probe {
        var enemies := EnemyTeam(data);
        if |enemies| > 0 && hasOnGameStart {
          var parsed := ParseEnemyTeam(enemies, champions);
          events := events + [GameStart(parsed)];
          return true;
        }
      }
      return false;
    }
  }
}
