/**
  The static tables loaded at start-up: champion ultimate cooldowns by rank tier
  and summoner spell cooldowns, the sorted name lists derived from them, and the
  icon file names. Reading the JSON files is not modelled: a table is the parsed
  document, with `None` for a JSON null.
*/
module ChampionData {
  import opened Wrappers
  import opened Text

  /** Champion name to its ultimate cooldowns by rank tier. */
  type CooldownTable = map<string, Option<seq<real>>>

  /** Summoner spell id to its cooldown. */
  type SpellTable = map<string, Option<real>>

  /** The debug switch and the cooldown it substitutes for every lookup. */
  datatype DebugConfig = DebugConfig(enabled: bool, cooldown: real)

  /** `d.get(key)`: None both for a missing key and for a null value. */
  function Lookup<V>(m: map<string, Option<V>>, key: string): (r: Option<V>)
    ensures r.Some? <==> key in m && m[key].Some?
    ensures r.Some? ==> r == m[key]
  {
    if key in m then m[key] else None
  }

  /** The names whose value is not null. */
  ghost function PresentKeys<V>(m: map<string, Option<V>>): set<string> {
    set k | k in m && m[k].Some?
  }

  /** `champions`, as `_load_data` derives it and `get_champion_list` returns it: the names with a non-null entry, sorted. */
  ghost function Champions(cooldowns: CooldownTable): (champions: seq<string>)
    ensures StrictlySorted(champions)
    ensures forall c :: c in champions <==> c in cooldowns && cooldowns[c].Some?
  {
    SortedSet(PresentKeys(cooldowns))
  }

  /** `spells`, as `_load_data` derives it and `get_spell_list` returns it. */
  ghost function Spells(cooldowns: SpellTable): (spells: seq<string>)
    ensures StrictlySorted(spells)
    ensures forall s :: s in spells <==> s in cooldowns && cooldowns[s].Some?
  {
    SortedSet(PresentKeys(cooldowns))
  }

  /** Sorted name lists hold each name once. */
  lemma ChampionsDistinct(cooldowns: CooldownTable, i: int, j: int)
    requires 0 <= i < j < |Champions(cooldowns)|
    ensures Champions(cooldowns)[i] != Champions(cooldowns)[j]
  {
    StrictlySortedDistinct(Champions(cooldowns), i, j);
  }

  /** The outcome of `get_cooldown`: a value, None, or the IndexError of a too-negative index. */
  datatype CooldownLookup = Found(seconds: real) | NotFound | IndexError

  /**
    `get_cooldown`: the cooldown of `champion` at rank tier `level`. Only
    `level >= len` is guarded; a negative level indexes from the end as Python does.
  */
  function GetCooldown(cooldowns: CooldownTable, champion: string, level: int): (r: CooldownLookup)
    ensures Lookup(cooldowns, champion).None? ==> r == NotFound
    ensures Lookup(cooldowns, champion).Some? ==>
      var tiers := Lookup(cooldowns, champion).value;
      && (0 <= level < |tiers| ==> r == Found(tiers[level]))
      && (r == NotFound <==> level >= |tiers|)
      && (r == IndexError <==> level < -|tiers|)
      && (r.Found? ==> r.seconds in tiers)
  {
    var tiers := Lookup(cooldowns, champion);
    if tiers.None? || level >= |tiers.value| then NotFound
    else if level >= 0 then Found(tiers.value[level])
    else if level >= -|tiers.value| then Found(tiers.value[|tiers.value| + level])
    else IndexError
  }

  /** `get_all_cooldowns`: three copies of the debug cooldown in debug mode, the table entry otherwise. */
  function GetAllCooldowns(cooldowns: CooldownTable, debug: DebugConfig, champion: string): (r: Option<seq<real>>)
    ensures debug.enabled ==> r == Some([debug.cooldown, debug.cooldown, debug.cooldown])
    ensures !debug.enabled ==> r == Lookup(cooldowns, champion)
  {
    if debug.enabled then Some([debug.cooldown, debug.cooldown, debug.cooldown])
    else Lookup(cooldowns, champion)
  }

  /** The champion name with spaces, apostrophes, periods and ampersands removed. */
  function IconName(champion: string): (name: string)
    ensures ' ' !in name && '\'' !in name && '.' !in name && '&' !in name
    ensures forall c :: c !in {' ', '\'', '.', '&'} ==> (c in name <==> c in champion)
    ensures |name| <= |champion|
  {
    Remove(Remove(Remove(Remove(champion, ' '), '\''), '.'), '&')
  }

  const ChampionIconAliases: map<string, string> :=
    map["NunuWillump" := "Nunu", "RenataGlasc" := "Renata", "Wukong" := "MonkeyKing"]

  const UltIconAliases: map<string, string> := map["NunuWillump" := "Nunu&Willump"]

  predicate EndsWith(s: string, suffix: string) {
    |suffix| <= |s| && s[|s| - |suffix|..] == suffix
  }

  /** The preferred icon file of a champion: the stripped name through the alias map of the chosen icon kind. */
  function IconFileName(champion: string, useChampionIcons: bool): (file: string)
    ensures useChampionIcons ==> EndsWith(file, ".png")
    ensures !useChampionIcons ==> EndsWith(file, "_r.png")
    ensures IconName(champion) !in ChampionIconAliases && IconName(champion) !in UltIconAliases ==>
      file == IconName(champion) + (if useChampionIcons then ".png" else "_r.png")
  {
    var name := IconName(champion);
    if useChampionIcons then
      (if name in ChampionIconAliases then ChampionIconAliases[name] else name) + ".png"
    else
      (if name in UltIconAliases then UltIconAliases[name] else name) + "_r.png"
  }

  /** The fallback icon file: the champion name with only its spaces removed. */
  function AltIconFileName(champion: string, useChampionIcons: bool): (file: string)
    ensures ' ' !in file
    ensures EndsWith(file, if useChampionIcons then ".png" else "_r.png")
    ensures var stem := file[..|file| - |if useChampionIcons then ".png" else "_r.png"|];
      && |stem| <= |champion|
      && forall c :: c != ' ' ==> (c in stem <==> c in champion)
  {
    Remove(champion, ' ') + (if useChampionIcons then ".png" else "_r.png")
  }

  /** POSIX `os.path.join(directory, name)`. */
  function PathJoin(directory: string, name: string): (path: string)
    ensures EndsWith(path, name)
    ensures |name| > 0 && name[0] == '/' ==> path == name
    ensures !(|name| > 0 && name[0] == '/') ==>
      && |directory| <= |path|
      && path[..|directory|] == directory
      && (|path| == |directory| + |name| ||
          (|path| == |directory| + 1 + |name| && path[|directory|] == '/'))
    ensures !(|name| > 0 && name[0] == '/') && directory != [] && directory[|directory| - 1] != '/' ==>
      |path| == |directory| + 1 + |name|
    ensures !(|name| > 0 && name[0] == '/') && (directory == [] || directory[|directory| - 1] == '/') ==>
      path == directory + name
  {
    if |name| > 0 && name[0] == '/' then name
    else if directory == [] || directory[|directory| - 1] == '/' then directory + name
    else directory + "/" + name
  }

  /**
    `get_icon_path`: the preferred file if it exists, else the fallback file if
    that exists, else None. `fileExists` stands for `os.path.exists`.
  */
  function GetIconPath(champion: string, useChampionIcons: bool, championIconsDir: string,
                       ultIconsDir: string, fileExists: string -> bool): (path: Option<string>)
    ensures var dir := if useChampionIcons then championIconsDir else ultIconsDir;
      var preferred := PathJoin(dir, IconFileName(champion, useChampionIcons));
      var fallback := PathJoin(dir, AltIconFileName(champion, useChampionIcons));
      && (path.Some? ==> fileExists(path.value) && (path.value == preferred || path.value == fallback))
      && (fileExists(preferred) ==> path == Some(preferred))
      && (path.None? <==> !fileExists(preferred) && !fileExists(fallback))
  {
    var dir := if useChampionIcons then championIconsDir else ultIconsDir;
    var preferred := PathJoin(dir, IconFileName(champion, useChampionIcons));
    var fallback := PathJoin(dir, AltIconFileName(champion, useChampionIcons));
    if fileExists(preferred) then Some(preferred)
    else if fileExists(fallback) then Some(fallback)
    else None
  }

  /** `SummonerSpellData.get_cooldown`: the debug cooldown in debug mode, the table entry otherwise. */
  function GetSpellCooldown(cooldowns: SpellTable, debug: DebugConfig, spell: string): (r: Option<real>)
    ensures debug.enabled ==> r == Some(debug.cooldown)
    ensures !debug.enabled ==> r == Lookup(cooldowns, spell)
  {
    if debug.enabled then Some(debug.cooldown) else Lookup(cooldowns, spell)
  }

  /** `SummonerSpellData.get_icon_path`: `<spell>.png` in the spell icon directory, if it exists. */
  function GetSpellIconPath(spell: string, spellIconsDir: string, fileExists: string -> bool): (path: Option<string>)
    ensures path.Some? <==> fileExists(PathJoin(spellIconsDir, spell + ".png"))
    ensures path.Some? ==> path.value == PathJoin(spellIconsDir, spell + ".png") && EndsWith(path.value, ".png")
  {
    var candidate := PathJoin(spellIconsDir, spell + ".png");
    assert EndsWith(candidate, spell + ".png");
    assert candidate[|candidate| - 4..] == (spell + ".png")[|spell + ".png"| - 4..];
    if fileExists(candidate) then Some(candidate) else None
  }

  /** A name without any of the stripped characters is its own icon name. */
  lemma IconNameOfClean(a: string)
    requires ' ' !in a && '\'' !in a && '.' !in a && '&' !in a
    ensures IconName(a) == a
  {
    RemoveAbsent(a, ' ');
    RemoveAbsent(a, '\'');
    RemoveAbsent(a, '.');
    RemoveAbsent(a, '&');
  }

  /** Stripping works piecewise on a concatenation. */
  lemma IconNameAppend(a: string, b: string)
    ensures IconName(a + b) == IconName(a) + IconName(b)
  {
    RemoveAppend(a, b, ' ');
    var a1, b1 := Remove(a, ' '), Remove(b, ' ');
    RemoveAppend(a1, b1, '\'');
    var a2, b2 := Remove(a1, '\''), Remove(b1, '\'');
    RemoveAppend(a2, b2, '.');
    var a3, b3 := Remove(a2, '.'), Remove(b2, '.');
    RemoveAppend(a3, b3, '&');
  }

  /** The icon file names follow from the stripped name alone. */
  lemma IconFileOfName(champion: string, name: string)
    requires IconName(champion) == name
    ensures IconFileName(champion, true) ==
      (if name in ChampionIconAliases then ChampionIconAliases[name] else name) + ".png"
    ensures IconFileName(champion, false) ==
      (if name in UltIconAliases then UltIconAliases[name] else name) + "_r.png"
  {
  }
}

/** The renamed icons, worked out on concrete champion names. */
module ChampionIconExamples {
  import opened ChampionData

  lemma IconFileWukong()
    ensures IconFileName("Wukong", true) == "MonkeyKing.png"
    ensures IconFileName("Wukong", false) == "Wukong_r.png"
  {
    IconNameOfClean("Wukong");
    IconFileOfName("Wukong", "Wukong");
  }

  /** A clean name, a separator that is stripped away entirely, and another clean name. */
  lemma IconNameSeparated(a: string, sep: string, b: string)
    requires ' ' !in a && '\'' !in a && '.' !in a && '&' !in a
    requires ' ' !in b && '\'' !in b && '.' !in b && '&' !in b
    requires IconName(sep) == ""
    ensures IconName(a + sep + b) == a + b
  {
    IconNameAppend(a + sep, b);
    IconNameAppend(a, sep);
    IconNameOfClean(a);
    IconNameOfClean(b);
  }

  lemma IconNameSpaceAmpersand()
    ensures IconName(" ") == ""
    ensures IconName(" & ") == ""
  {
  }

  /** Any champion whose name strips to "RenataGlasc" (such as "Renata Glasc") has the plain icon "Renata". */
  lemma RenataIcons(champion: string)
    requires IconName(champion) == "RenataGlasc"
    ensures IconFileName(champion, true) == "Renata.png"
    ensures IconFileName(champion, false) == "RenataGlasc_r.png"
  {
    IconFileOfName(champion, "RenataGlasc");
  }

  /** Any champion whose name strips to "NunuWillump" (such as "Nunu & Willump") has the icons "Nunu" and "Nunu&Willump". */
  lemma NunuIcons(champion: string)
    requires IconName(champion) == "NunuWillump"
    ensures IconFileName(champion, true) == "Nunu.png"
    ensures IconFileName(champion, false) == "Nunu&Willump_r.png"
  {
    IconFileOfName(champion, "NunuWillump");
  }
}
