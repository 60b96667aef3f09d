# League of Legends Spell Tracker — a Dafny model of its core

The Spell Tracker is a desktop overlay. It keeps countdowns of the enemy
champions' ultimate abilities and summoner spells. When a game starts, it fills
its slots from the game client's local "live client" data. This project models
the logic behind the overlay and proves properties of it:

- **Timers** (`timer.dfy`, module `Timer`). `CooldownTimer` is the ultimate
  timer: a rank tier indexing a list of cooldowns, and a clock that is started,
  reset, and expires lazily when queried. `SummonerSpellTimer` is the same
  clock with one cooldown value. `TimerManager` keeps slot-keyed tables of
  both kinds and calls its registered observers after each start, reset or
  level change of a timer that exists.
  These are classes whose methods update fields. The clock itself, a start time
  and an active flag, is the datatype `Clock`. One remaining-time query is the
  pure function `Query`, so the lemmas about expiry are stated once for both
  timer kinds.
- **Haste arithmetic** (`haste_calculator.dfy`, module `HasteCalculator`). It
  covers the two item/rune bonus sums and the `base / (1 + haste/100)`
  cooldown formula.
- **Live client queries** (`live_client_api.dfy`, module `LiveClient`). Given
  one `allgamedata` snapshot, it finds the player list, the local player, the
  local player's team (a linear search) and the enemy team (an
  order-preserving filter).
- **Static tables** (`champion_data.dfy`, modules `ChampionData` and
  `ChampionIconExamples`). It covers:
  - cooldown lookups of the parsed JSON tables, with Python's negative
    indexing;
  - the debug-mode override;
  - the sorted champion and spell lists;
  - icon file names and icon path selection.
- **Game auto-loader** (`auto_loader.dfy`, module `AutoLoader`). It covers:
  - champion and spell name normalisation and enemy roster parsing;
  - one pass of the monitor loop, an edge-triggered reaction to the
    "game running" probe, as the pure `Step` and as `GameAutoLoader.Tick`;
  - `force_reload`.
- **Helpers** (`text.dfy`, `wrappers.dfy`): ASCII `str.lower`, one-character
  `str.replace(c, "")`, Python's code-point order on strings with a sorted-list
  construction, and `Option`.

Wall-clock time is the argument `now` of every timer method. The "game
running" probe result and the fetched snapshot are arguments of the auto-loader
methods. The existence test for icon files is the function argument
`fileExists`. Each callback becomes an entry in a log field: `invocations` for
the timer manager, `events` for the auto-loader.

The model follows the code as written:

- The timers use the raw `cooldowns[level]`; the code applies no haste inside
  them.
- The code has no alert callback, no haste rescaling and no in-game level
  update event.
- The bonus sums test membership: a duplicated item counts once.

## Model

| member | source | states |
|---|---|---|
| Timer.Query | src/timer.py:41-53 | one remaining-time query: 0 and the clock unchanged when inactive; otherwise `cooldown - elapsed` with the clock kept, or 0 and an idle clock once that is `<= 0` |
| Timer.RemainingBounds | src/timer.py:45-49 | for `now >= start` the remaining time is `>= 0`, at most the cooldown, and 0 exactly when the deadline has passed |
| Timer.RemainingCountsDown | src/timer.py:45-47 | remaining time never increases and, while positive, drops exactly as fast as the clock advances |
| Timer.QueryKeepsConsistent | src/timer.py:24-25 | a query, including its lazy reset, keeps `is_active <==> start_time != None` |
| Timer.QueryZeroIffStopped | src/timer.py:55-56 | a query returns 0 exactly when the clock is inactive afterwards, so `is_ready` is "inactive after the query" |
| Timer.QueryActive | src/timer.py:41-53 | an active clock queried at or after its start either still runs with `0 < left <= cooldown`, `left == start + cooldown - now`, or is reset exactly when `start + cooldown <= now` |
| Timer.QueryAtStart | src/timer.py:92-115 | queried at its own start, a clock shows the full cooldown; a zero cooldown (the unguarded spell timer start) is reset at once |
| Timer.QueryAfterDeadline | src/timer.py:49-51 | past the deadline the query resets the clock, and every later query sees an idle clock and returns 0 |
| Timer.NextLevel | src/timer.py:62-63 | the next tier stays below `min(3, len)` and is `level + 1` while that fits |
| Timer.NextLevelCycles | src/timer.py:62-63 | tiers cycle 0, 1, 2, 0 with three or more cooldowns, 0, 1, 0 with two, and stay 0 with one |
| Timer.CooldownTimer.constructor | src/timer.py:20-25 | fields as given, idle clock, invariant established |
| Timer.CooldownTimer.Start | src/timer.py:27-30 | an inactive timer with cooldowns gets start time `now` and becomes active; otherwise nothing changes |
| Timer.CooldownTimer.Reset | src/timer.py:32-34 | clears start time and active flag, leaving the level alone; hence idempotent |
| Timer.CooldownTimer.CurrentCooldown | src/timer.py:36-39 | `cooldowns[level]` when in range and 0 otherwise, including for an empty list |
| Timer.CooldownTimer.GetRemainingTime | src/timer.py:41-53 | result and new clock are `Query` of the old clock at the current cooldown |
| Timer.CooldownTimer.IsReady | src/timer.py:55-56 | the new clock is the query's, and the answer is true exactly when the timer is inactive afterwards |
| Timer.CooldownTimer.SetLevel | src/timer.py:58-60 | the level changes only to a value in `[0, len(cooldowns))` |
| Timer.CooldownTimer.IncrementLevel | src/timer.py:62-63 | on an empty cooldown list it raises (division by zero) and changes nothing; otherwise the level becomes `NextLevel` |
| Timer.SummonerSpellTimer.constructor | src/timer.py:86-90 | fields as given, idle clock |
| Timer.SummonerSpellTimer.Start | src/timer.py:92-95 | an inactive timer starts at `now` without any cooldown guard; an active one is unchanged |
| Timer.SummonerSpellTimer.Reset | src/timer.py:97-99 | idle clock |
| Timer.SummonerSpellTimer.GetRemainingTime | src/timer.py:101-112 | result and new clock are `Query` of the old clock at the spell's scalar cooldown |
| Timer.SummonerSpellTimer.IsReady | src/timer.py:114-115 | true exactly when inactive after the query |
| Timer.TimerManager.constructor | src/timer.py:134-137 | empty tables, no observers |
| Timer.TimerManager.NotifyUpdate | src/timer.py:176-178 | each registered observer is called once, in registration order |
| Timer.TimerManager.RegisterUpdateCallback | src/timer.py:173-174 | appends the observer |
| Timer.TimerManager.Update | src/timer.py:180-181 | notifies all observers unconditionally |
| Timer.TimerManager.CreateTimer | src/timer.py:139-140 | a fresh idle timer replaces whatever was in the slot; other slots untouched |
| Timer.TimerManager.RemoveTimer | src/timer.py:142-144 | the table loses exactly that slot; absent slot is a no-op |
| Timer.TimerManager.GetTimer | src/timer.py:146-147 | the slot's timer, or None exactly when the slot is empty |
| Timer.TimerManager.StartTimer | src/timer.py:149-153 | absent slot: nothing and no notification; present: the timer's start, then one notification round |
| Timer.TimerManager.ResetTimer | src/timer.py:155-159 | absent slot: nothing; present: timer idle, level kept, one notification round |
| Timer.TimerManager.SetLevel | src/timer.py:161-165 | absent slot: nothing; present: the guarded level change, clock kept, one notification round |
| Timer.TimerManager.IncrementLevel | src/timer.py:167-171 | absent slot: nothing; present: `NextLevel` and one notification round, or the raise of an empty cooldown list with no notification |
| Timer.TimerManager.CreateSummonerSpellTimer | src/timer.py:183-184 | a fresh idle spell timer replaces the key's entry; other keys untouched |
| Timer.TimerManager.RemoveSummonerSpellTimer | src/timer.py:186-189 | the table loses exactly that key |
| Timer.TimerManager.GetSummonerSpellTimer | src/timer.py:191-192 | the key's timer, or None exactly when absent |
| Timer.TimerManager.StartSummonerSpellTimer | src/timer.py:194-198 | absent key: nothing; present: the spell timer's start and one notification round |
| Timer.TimerManager.ResetSummonerSpellTimer | src/timer.py:200-204 | absent key: nothing; present: idle and one notification round |
| HasteCalculator.SummonerSpellHaste | src/haste_calculator.py:24-43 | result in {0, 12, 18, 30}; the 12 is present iff Ionian Boots (3158) is an item, the 18 iff Cosmic Insight (8347) is a rune |
| HasteCalculator.SummonerSpellHasteBySet | src/haste_calculator.py:37-41 | only the sets of ids matter: order and duplicates do not |
| HasteCalculator.SummonerSpellHasteIgnoresMisplacedIds | src/haste_calculator.py:37-41 | the rune id among items, or the boot id among runes, contributes nothing |
| HasteCalculator.UltimateHaste | src/haste_calculator.py:46-65 | result in {0, 20, 30, 50}; the 30 iff Experimental Hexplate (3084), the 20 iff Malignance (3118) |
| HasteCalculator.UltimateHasteBySet | src/haste_calculator.py:57-65 | ability haste is ignored and only the set of items matters |
| HasteCalculator.HasteDivisor | src/haste_calculator.py:84 | the divisor `1 + haste/100` exceeds 1 for positive haste |
| HasteCalculator.ApplyHaste | src/haste_calculator.py:81-84 | non-positive haste leaves the cooldown unchanged; for positive haste the result times `1 + haste/100` is the base |
| HasteCalculator.ApplyHasteHundredHalves | src/haste_calculator.py:84 | 100 haste halves the cooldown |
| HasteCalculator.ApplyHasteBounds | src/haste_calculator.py:81-84 | a non-negative base gives a result in `[0, base]`, strictly below a positive base for positive haste |
| HasteCalculator.ApplyHasteAntitone | src/haste_calculator.py:81-84 | more haste never lengthens a non-negative cooldown, and strictly shortens a positive one between positive hastes |
| LiveClient.GetAllPlayers | src/live_client_api.py:51-55 | `allPlayers` when the snapshot exists and has it, None otherwise |
| LiveClient.GetActivePlayer | src/live_client_api.py:57-61 | `activePlayer` when the snapshot exists and has it, None otherwise |
| LiveClient.GetPlayerTeam | src/live_client_api.py:63-80 | the linear search returns `PlayerTeam`: None on any failed guard, else the first name match's team |
| LiveClient.FirstTeamIsFirstMatch | src/live_client_api.py:76-80 | the team found is that of the first player with the local summoner's name, None if nobody has it |
| LiveClient.OtherTeams | src/live_client_api.py:91-94 | an order-preserving subsequence without the given team, keeping every other player with its multiplicity |
| LiveClient.EnemyTeam | src/live_client_api.py:82-96 | empty when players are missing or empty or the local team is missing or empty; otherwise exactly `OtherTeams` of the players: a subsequence of them in which nobody is on the local team and every player off it is kept |
| ChampionData.Lookup | src/champion_data.py:47 | `dict.get`: a value exactly when the key is present with a non-null value |
| ChampionData.Champions | src/champion_data.py:33-36 | strictly sorted, and holds exactly the names with a non-null entry |
| ChampionData.ChampionsDistinct | src/champion_data.py:98-99 | the champion list has no repeated name |
| ChampionData.GetCooldown | src/champion_data.py:46-50 | None for an absent champion or `level >= len`; `tiers[level]` for an in-range level; a too-negative level raises IndexError; any value found is a tier |
| ChampionData.GetAllCooldowns | src/champion_data.py:52-55 | three debug cooldowns in debug mode, the (possibly null) table entry otherwise |
| ChampionData.IconName | src/champion_data.py:61 | none of space, `'`, `.`, `&` remains; every other character present in the name is kept; never longer |
| ChampionData.IconFileName | src/champion_data.py:63-87 | champion icons end in `.png`, ultimate icons in `_r.png`; a name outside both alias maps passes through |
| ChampionData.AltIconFileName | src/champion_data.py:81-92 | the fallback file has no spaces and the mode's suffix, and its stem keeps every other character of the champion name and is no longer than it |
| ChampionData.PathJoin | src/champion_data.py:76 | an absolute name is the path itself; otherwise the path starts with the directory, ends with the name, and has exactly one `/` inserted between them when the directory is non-empty and does not end in `/`, none otherwise |
| ChampionData.GetIconPath | src/champion_data.py:60-96 | the preferred path when it exists, else the fallback when it exists, else None; anything returned exists |
| ChampionData.IconNameAppend | src/champion_data.py:61 | stripping works piecewise on concatenations |
| ChampionData.IconNameOfClean | src/champion_data.py:61 | a name with none of the stripped characters is its own icon name |
| ChampionData.Spells | src/champion_data.py:120-123 | strictly sorted, and holds exactly the spells with a non-null entry |
| ChampionData.GetSpellCooldown | src/champion_data.py:133-136 | debug cooldown in debug mode, the table entry otherwise |
| ChampionData.GetSpellIconPath | src/champion_data.py:138-142 | `<spell>.png` in the spell directory exactly when that file exists |
| ChampionIconExamples.IconFileWukong | src/champion_data.py:63-87 | Wukong's champion icon is `MonkeyKing.png`, its ultimate icon `Wukong_r.png` |
| ChampionIconExamples.IconNameSeparated | src/champion_data.py:61 | two clean parts around a separator that strips away entirely strip to their concatenation |
| ChampionIconExamples.IconNameSpaceAmpersand | src/champion_data.py:61 | the separators " " and " & " (as in "Renata Glasc", "Nunu & Willump") strip to nothing |
| ChampionIconExamples.RenataIcons | src/champion_data.py:63-87 | a name stripping to `RenataGlasc` has champion icon `Renata.png` and ultimate icon `RenataGlasc_r.png` |
| ChampionIconExamples.NunuIcons | src/champion_data.py:63-87 | a name stripping to `NunuWillump` has champion icon `Nunu.png` and ultimate icon `Nunu&Willump_r.png` |
| AutoLoader.MatchKey | src/auto_loader.py:103-104 | the comparison key is lower case, free of `'`, `.`, space and `&`, and keeps every other character of the lower-cased name |
| AutoLoader.MatchKeyAppend | src/auto_loader.py:103-104 | the key of a concatenation is the concatenation of the keys |
| AutoLoader.MatchKeyInsensitive | src/auto_loader.py:103-104 | keys ignore case (lower-casing a name keeps its key) and the four punctuation characters (dropping one anywhere keeps the key) |
| AutoLoader.FirstMatch | src/auto_loader.py:102-105 | a match found is a known champion with the same key |
| AutoLoader.FirstMatchIsFirst | src/auto_loader.py:102-107 | no match iff no champion has the key; otherwise the first champion in list order with it |
| AutoLoader.NormalizeChampionName | src/auto_loader.py:99-107 | the loop with early return computes `NormalizedChampion` |
| AutoLoader.NormalizedChampionMeaning | src/auto_loader.py:99-107 | the result is a known champion with the input's key, or the input itself when there is none |
| AutoLoader.NormalizeChampionIdempotent | src/auto_loader.py:99-107 | normalising a normalised name changes nothing |
| AutoLoader.NormalizeSpellName | src/auto_loader.py:109-128 | the table's id for the ten display names, the lower-cased name otherwise; always lower case |
| AutoLoader.TeleportAliases | src/auto_loader.py:113-114 | "Teleport" and "Unleashed Teleport" both become `teleport` |
| AutoLoader.ParsedTeam | src/auto_loader.py:77-97 | one entry per player, in order, each the player's normalised champion and spells with missing fields read as "" |
| AutoLoader.ParseEnemyTeam | src/auto_loader.py:77-97 | the append loop computes `ParsedTeam` |
| AutoLoader.Step | src/auto_loader.py:46-54 | the new flag is the probe; a rising edge fires one start with the parsed roster iff the roster is non-empty and a start callback is set; a falling edge fires one end iff an end callback is set; an unchanged probe fires nothing |
| AutoLoader.RunAlternates | src/auto_loader.py:46-54 | with both callbacks set and non-empty rosters, starts and ends alternate, beginning with a start iff no game was active; the flag ends as the last probe, with an odd number of events exactly when it changed |
| AutoLoader.StartStayEnd | src/auto_loader.py:30-54 | from the initial state, probes true, true, false give exactly one start with the parsed roster, then one end |
| AutoLoader.GameAutoLoader.constructor | src/auto_loader.py:23-30 | no game active, no callbacks, empty log |
| AutoLoader.GameAutoLoader.SetCallbacks | src/auto_loader.py:130-134 | both callbacks are replaced, an omitted one by none |
| AutoLoader.GameAutoLoader.HandleGameStart | src/auto_loader.py:61-68 | the game flag is set even when the roster is empty; one start with the parsed enemy team iff it is non-empty and a start callback is set |
| AutoLoader.GameAutoLoader.HandleGameEnd | src/auto_loader.py:70-75 | the flag is cleared; one end iff an end callback is set |
| AutoLoader.GameAutoLoader.Tick | src/auto_loader.py:49-54 | new flag and new events are exactly `Step` of the old flag, the probe and the snapshot's enemy team |
| AutoLoader.GameAutoLoader.ForceReload | src/auto_loader.py:136-143 | returns true iff the probe is true, the enemy team non-empty and a start callback set, firing exactly one start then; never touches the game flag |
| Text.Lower | src/auto_loader.py:103-104 | `str.lower` on ASCII: same length, pointwise lower-cased, no upper-case letter left |
| Text.LowerIdempotent | src/auto_loader.py:123 | lower-casing twice is lower-casing once |
| Text.Remove | src/champion_data.py:61 | `replace(c, "")`: no `c` left, every other character kept, never longer |
| Text.SortedSet | src/champion_data.py:33-36 | `sorted` of distinct names: strictly increasing in code-point order, exactly the given names |
| Text.StrLessTotal | src/champion_data.py:33-36 | the string order used by `sorted` is total on distinct strings |
| Text.StrLessTransitive | src/champion_data.py:33-36 | and transitive |

## Left out

- Threads and sleeping: `start`/`stop` of the auto-loader, the `while self.running` loop, `join(timeout=5)`, `time.sleep` and the error-printing `except` branch. One pass of the loop is `Tick`; a run of passes is `Run`.
- Logging via `print` has no observable effect in the model.
- HTTP in the live client (session, TLS, timeouts, status codes) is outside the model. A failed fetch is a `None` snapshot, and `is_game_active` is a boolean argument with any exception read as false.
- AutoLoader.GameAutoLoader.Tick: the code fetches `allgamedata` again inside each query of `get_enemy_team`, and the model assumes all fetches of one pass see the same snapshot.
- Reading the JSON files and `os.path.exists` are I/O. A table is the parsed document, and existence is the `fileExists` argument.
- The configuration constants (`DEBUG_MODE`, `DEBUG_COOLDOWN`, the icon directories) are parameters.
- `set_icon_type` is left out: the flag is the `useChampionIcons` argument of the icon functions.
- Text.Lower: only ASCII letters are lower-cased. Python's Unicode case mapping is not modelled.
- JSON `null` in the live client snapshot is treated like a missing key. For `allPlayers`, `activePlayer`, `summonerName` and `team` the code behaves that way too.
- AutoLoader.ParsedTeam: a null `summonerSpells` or `summonerSpellOne`/`summonerSpellTwo` makes the code fail on `None.get(...)`, and a null `displayName` fails on `None.lower()`. The model reads each of these as "".
- AutoLoader.ParsedTeam: a null `championName` fails on `None.lower()` when the champion list is non-empty, and passes through as None when it is empty. The model reads it as "".
- ChampionData.PathJoin: POSIX `os.path.join` only. Windows drive letters and backslashes are not modelled.
- Timer.CooldownTimer.constructor: the level is a natural number. Negative levels, which Python would use as negative indexes, are not modelled; the only caller passes the default 0.
- `format_time` of both timer classes is text rendering and is left out.
- Callbacks are recorded as identifiers in a log. They are not code that could re-enter the manager or raise.
- The manager stores the caller's `cooldowns` list by reference; that aliasing is not modelled, since the list is a value.
- Times and cooldowns are exact reals, with no IEEE rounding.
- The code has none of the following, so neither does the model:
  - haste applied inside timers;
  - pre-ready alerts;
  - progress-preserving haste rescaling;
  - in-game level updates;
  - lane-priority sorting of the roster;
  - a rank tier derived from champion level.
