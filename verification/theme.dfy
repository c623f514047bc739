/**
 The app's theme state: the chosen mode (`light`, `dark` or `system`), the
 scheme the operating system reports, the effective scheme derived from both,
 and the palette chosen from it. The mode is persisted under the storage key
 `themeMode`; each storage call is one step that succeeds or fails.
 */
module Theme {
  import opened Js

  datatype ThemeMode = Light | Dark | System

  /** A concrete colour scheme. */
  datatype Scheme = LightScheme | DarkScheme

  datatype ThemeState = ThemeState(mode: ThemeMode, system: Option<Scheme>)

  /** The palette of one scheme, one colour per role. */
  datatype Palette = Palette(
    background: string,
    cardBackground: string,
    iconBackground: string,
    textPrimary: string,
    textSecondary: string,
    textTertiary: string,
    textLight: string,
    textWhite: string,
    accent: string,
    accentLight: string,
    calendarToday: string,
    calendarWorkout: string,
    calendarDefault: string,
    workoutLight: string,
    workoutMedium: string,
    workoutIntense: string,
    quoteAccent: string,
    border: string,
    shadow: string)

  const LightColors := Palette(
    "#FAFAFA", "#FFF", "#F5F5F5", "#000", "#666", "#999", "#CCC", "#FFF",
    "#FF6B35", "#FFE66D", "#FFE66D", "#000", "#F5F5F5",
    "#E8A89A", "#D97A5E", "#C85A3E", "#FFD700", "#F0F0F0", "#000")

  const DarkColors := Palette(
    "#0A0A0A", "#1A1A1A", "#2A2A2A", "#FFFFFF", "#B3B3B3", "#808080", "#4D4D4D", "#FFF",
    "#FF6B35", "#FFE66D", "#FFE66D", "#FF6B35", "#2A2A2A",
    "#E8A89A", "#D97A5E", "#C85A3E", "#FFD700", "#2A2A2A", "#000")

  /** The state when the app starts: mode `system`, with whatever scheme the
      operating system reports (`None` when it reports none). */
  function Initial(system: Option<Scheme>): (st: ThemeState)
    ensures st.mode == System && st.system == system
  {
    ThemeState(System, system)
  }

  /** The stored spelling of a mode. */
  function ModeName(m: ThemeMode): string {
    match m
    case Light => "light"
    case Dark => "dark"
    case System => "system"
  }

  /** A stored string read back as a mode: only the three exact spellings are
      accepted. */
  function ParseThemeMode(s: string): (r: Option<ThemeMode>)
    ensures r.Some? <==> s == "light" || s == "dark" || s == "system"
  {
    if s == "light" then Some(Light)
    else if s == "dark" then Some(Dark)
    else if s == "system" then Some(System)
    else None
  }

  /** Parsing undoes `ModeName`, and accepts nothing else. */
  lemma ParseThemeModeInvertsModeName(m: ThemeMode, s: string)
    ensures ParseThemeMode(ModeName(m)) == Some(m)
    ensures ParseThemeMode(s) == Some(m) ==> s == ModeName(m)
  {
  }

  /** `getEffectiveColorScheme`. */
  function EffectiveScheme(st: ThemeState): (s: Scheme)
    ensures st.mode == System ==> (s == DarkScheme <==> st.system == Some(DarkScheme))
    ensures st.mode == Light ==> s == LightScheme
    ensures st.mode == Dark ==> s == DarkScheme
  {
    match st.mode
    case System => if st.system == Some(DarkScheme) then DarkScheme else LightScheme
    case Light => LightScheme
    case Dark => DarkScheme
  }

  predicate IsDark(st: ThemeState) {
    EffectiveScheme(st) == DarkScheme
  }

  /** The palette the screens draw with. */
  function Colors(st: ThemeState): (p: Palette)
    ensures p == DarkColors <==> IsDark(st)
    ensures p == LightColors <==> !IsDark(st)
  {
    if EffectiveScheme(st) == DarkScheme then DarkColors else LightColors
  }

  /** The dark palette is chosen exactly when the mode is `dark`, or the mode
      is `system` and the operating system is dark. */
  lemma DarkPaletteExactly(st: ThemeState)
    ensures Colors(st) == DarkColors <==>
      st.mode == Dark || (st.mode == System && st.system == Some(DarkScheme))
  {
  }

  /** The operating system changed its scheme (the appearance listener). */
  function SystemChanged(st: ThemeState, system: Option<Scheme>): (st': ThemeState)
    ensures st'.mode == st.mode && st'.system == system
  {
    st.(system := system)
  }

  /** An explicit mode does not follow the operating system. */
  lemma ExplicitModeIgnoresSystem(st: ThemeState, system: Option<Scheme>)
    requires st.mode != System
    ensures Colors(SystemChanged(st, system)) == Colors(st)
  {
  }

  /** The outcome of reading a storage key: the call failed, or it returned
      the stored string (`None` when the key is absent). */
  datatype StorageRead = ReadFailed | Read(value: Option<string>)

  /** `loadTheme`: a saved mode is adopted only if it is one of the three
      spellings; anything else, and a failed read, leaves the state alone. */
  function LoadTheme(st: ThemeState, saved: StorageRead): (st': ThemeState)
    ensures st'.system == st.system
    ensures saved.Read? && saved.value.Some? && ParseThemeMode(saved.value.value).Some? ==>
      ModeName(st'.mode) == saved.value.value
    ensures !(saved.Read? && saved.value.Some? && ParseThemeMode(saved.value.value).Some?) ==> st' == st
  {
    match saved
    case ReadFailed => st
    case Read(None) => st
    case Read(Some(v)) =>
      match ParseThemeMode(v)
      case Some(m) => st.(mode := m)
      case None => st
  }

  /** `setTheme`: the mode is written to storage first and adopted only when
      the write succeeded. `stored` is the value under `themeMode`. */
  function SetTheme(st: ThemeState, stored: Option<string>, m: ThemeMode, writeOk: bool): (r: (ThemeState, Option<string>))
    ensures writeOk ==> r.0 == st.(mode := m) && r.1 == Some(ModeName(m))
    ensures !writeOk ==> r == (st, stored)
  {
    if writeOk then (st.(mode := m), Some(ModeName(m))) else (st, stored)
  }

  /** A mode that was set successfully is the mode the next start loads. */
  lemma SetThemeSurvivesRestart(st: ThemeState, stored: Option<string>, m: ThemeMode, system: Option<Scheme>)
    ensures var r := SetTheme(st, stored, m, true);
      LoadTheme(Initial(system), Read(r.1)).mode == m
  {
    ParseThemeModeInvertsModeName(m, ModeName(m));
  }
}
