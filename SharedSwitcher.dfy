/** The self-contained switchers of Edge Canary (`SimpleThemeManager`) and
    Opera (`OperaThemeManager`). Both carry their own copy of the schedule,
    a five-colour table and a small `localStorage` store, and keep the
    override in two fields instead of storage. They differ only in the
    constants a `Variant` names: the style id, the `data-browser` tag, and
    the comment and focus rule of the generated CSS. */
module SharedSwitcher {
  import opened Wrappers
  import opened Strings
  import opened Modes
  import opened ThemeScheduler
  import opened BaseThemes
  import opened StorageManager
  import opened Host

  datatype Variant = EdgeShared | Opera

  function StyleIdOf(v: Variant): string {
    match v
    case EdgeShared => "hazeover-shared-theme-style"
    case Opera => "hazeover-opera-theme-style"
  }

  function BrowserTag(v: Variant): string {
    match v
    case EdgeShared => "edge-canary-shared"
    case Opera => "opera-shared"
  }

  /** The testing helper's override length, five minutes. */
  const TestOverrideMs: int := 300000

  // ---------------------------------------------------------------------
  // Colours and CSS

  /** One entry of THEME_COLORS. */
  datatype Palette = Palette(bg: string, border: string, accent: string, text: string, sidebar: string)

  /** THEME_COLORS, the same in both files. */
  function PaletteOf(m: Mode): Palette {
    match m
    case Day => Palette("#F8F9FA", "#E9ECEF", "#0078d4", "#2C3E50", "rgba(248, 249, 250, 0.95)")
    case Evening => Palette("#FFF8F0", "#FF8C42", "#E67E22", "#8B4513", "rgba(255, 140, 66, 0.15)")
    case Night => Palette("#1A1A2E", "#722F37", "#9B59B6", "#ECF0F1", "rgba(45, 27, 105, 0.9)")
  }

  /** `THEME_COLORS[mode]`: `None` is `undefined`. */
  function LookupPalette(mode: string): Option<Palette> {
    match Parse(mode)
    case None => None
    case Some(m) => Some(PaletteOf(m))
  }

  /** The five-colour table is the first five colours of the shared schemes. */
  lemma PaletteMatchesSharedScheme(m: Mode)
    ensures var c := SchemeOf(m);
            PaletteOf(m) == Palette(c.bg, c.border, c.accent, c.text, c.sidebar)
  {
  }

  /** One `name: value !important;` line of the generated css. */
  function Decl(name: string, value: string): string {
    "\n        " + name + ": " + value + " !important;"
  }

  /** The fixed text of a switcher's css between the substituted colours:
      the `:root` opening, the rule closing, the comment and `body`
      opening, the focus selectors, the `box-shadow` opening (its glow
      radius differs), the focus rule's end and the trailing indent. */
  datatype CssLayout = CssLayout(rootOpen: string, ruleClose: string, bodyOpen: string,
                                 focusOpen: string, glowOpen: string, focusClose: string, tail: string)

  const EdgeSharedLayout: CssLayout :=
    CssLayout("\n      :root {", "\n      }\n      \n      ",
              "\n      \n      /* Additional Edge Canary styling */\n      body {",
              ".address-bar:focus, .url-bar:focus, input[type=\"url\"]:focus,\n      "
              + ".search-field:focus, .omnibox:focus, input[class*=\"omnibox\"]:focus {",
              "\n        box-shadow: 0 0 15px ", "33;\n        outline: none;\n      }", "\n    ")

  const OperaLayout: CssLayout :=
    CssLayout("\n      :root {", "\n      }\n      \n      ",
              "\n      \n      /* Additional Opera-specific styling */\n      body {",
              "/* Opera Focus States */\n      "
              + ".opera-address-bar:focus, .address-field-opera:focus, .url-field-opera:focus,\n      .search-opera:focus {",
              "\n        box-shadow: 0 0 20px ", "33;\n        outline: none;\n      }", "\n    ")

  function LayoutOf(v: Variant): CssLayout {
    match v
    case EdgeShared => EdgeSharedLayout
    case Opera => OperaLayout
  }

  /** The `:root` rule with the five custom properties. */
  function RootRule(l: CssLayout, p: Palette): string {
    l.rootOpen + Decl("--theme-bg", p.bg) + Decl("--theme-border", p.border)
    + Decl("--theme-accent", p.accent) + Decl("--theme-text", p.text) + Decl("--theme-sidebar", p.sidebar)
    + l.ruleClose
  }

  function BodyRule(l: CssLayout, p: Palette): string {
    l.bodyOpen + Decl("background", p.bg) + Decl("color", p.text) + l.ruleClose
  }

  function FocusRule(l: CssLayout, p: Palette): string {
    l.focusOpen + Decl("border-color", p.accent) + l.glowOpen + p.accent + l.focusClose
  }

  /** The css applyTheme builds from a palette and the configuration's css. */
  function SwitcherCss(l: CssLayout, p: Palette, configCss: string): string {
    RootRule(l, p) + configCss + BodyRule(l, p) + FocusRule(l, p) + l.tail
  }

  /** The css opens with the five `--theme-*` declarations of the palette,
      the configuration's css follows at once, and the body and focus rules
      use the palette's background, text and accent colours. */
  lemma SwitcherCssDeclares(l: CssLayout, p: Palette, k: string)
    ensures var css := SwitcherCss(l, p, k);
            && StartsWith(css, RootRule(l, p) + k)
            && Contains(css, Decl("--theme-bg", p.bg)) && Contains(css, Decl("--theme-border", p.border))
            && Contains(css, Decl("--theme-accent", p.accent)) && Contains(css, Decl("--theme-text", p.text))
            && Contains(css, Decl("--theme-sidebar", p.sidebar))
            && Contains(css, Decl("background", p.bg)) && Contains(css, Decl("color", p.text))
            && Contains(css, Decl("border-color", p.accent))
  {
    SwitcherCssOpens(l, p, k);
    var d1, d2, d3 := Decl("--theme-bg", p.bg), Decl("--theme-border", p.border), Decl("--theme-accent", p.accent);
    var d4, d5 := Decl("--theme-text", p.text), Decl("--theme-sidebar", p.sidebar);
    RootDeclares(l.rootOpen, d1, d2, d3, d4, d5, l.ruleClose);
    InRootRule(l, p, k, d1);
    InRootRule(l, p, k, d2);
    InRootRule(l, p, k, d3);
    InRootRule(l, p, k, d4);
    InRootRule(l, p, k, d5);
    var bg, fg := Decl("background", p.bg), Decl("color", p.text);
    BodyDeclares(l.bodyOpen, bg, fg, l.ruleClose);
    InBodyRule(l, p, k, bg);
    InBodyRule(l, p, k, fg);
    var focus := Decl("border-color", p.accent);
    ContainsMiddle(l.focusOpen, focus, l.glowOpen);
    ContainsExtendRight(l.focusOpen + focus + l.glowOpen, p.accent, focus);
    ContainsExtendRight(l.focusOpen + focus + l.glowOpen + p.accent, l.focusClose, focus);
    InFocusRule(l, p, k, focus);
  }

  lemma SwitcherCssOpens(l: CssLayout, p: Palette, k: string)
    ensures StartsWith(SwitcherCss(l, p, k), RootRule(l, p) + k)
  {
    assert SwitcherCss(l, p, k)[..|RootRule(l, p) + k|] == RootRule(l, p) + k;
  }

  /** What the `:root` rule contains, the css contains. */
  lemma InRootRule(l: CssLayout, p: Palette, k: string, x: string)
    requires Contains(RootRule(l, p), x)
    ensures Contains(SwitcherCss(l, p, k), x)
  {
    ContainsExtendRight(RootRule(l, p), k, x);
    ContainsExtendRight(RootRule(l, p) + k, BodyRule(l, p), x);
    ContainsExtendRight(RootRule(l, p) + k + BodyRule(l, p), FocusRule(l, p), x);
    ContainsExtendRight(RootRule(l, p) + k + BodyRule(l, p) + FocusRule(l, p), l.tail, x);
  }

  lemma InBodyRule(l: CssLayout, p: Palette, k: string, x: string)
    requires Contains(BodyRule(l, p), x)
    ensures Contains(SwitcherCss(l, p, k), x)
  {
    ContainsExtendLeft(RootRule(l, p) + k, BodyRule(l, p), x);
    ContainsExtendRight(RootRule(l, p) + k + BodyRule(l, p), FocusRule(l, p), x);
    ContainsExtendRight(RootRule(l, p) + k + BodyRule(l, p) + FocusRule(l, p), l.tail, x);
  }

  lemma InFocusRule(l: CssLayout, p: Palette, k: string, x: string)
    requires Contains(FocusRule(l, p), x)
    ensures Contains(SwitcherCss(l, p, k), x)
  {
    ContainsExtendLeft(RootRule(l, p) + k + BodyRule(l, p), FocusRule(l, p), x);
    ContainsExtendRight(RootRule(l, p) + k + BodyRule(l, p) + FocusRule(l, p), l.tail, x);
  }

  /** Both of two consecutive pieces occur in their concatenation. */
  lemma BodyDeclares(h: string, d1: string, d2: string, t: string)
    ensures Contains(h + d1 + d2 + t, d1) && Contains(h + d1 + d2 + t, d2)
  {
    ContainsMiddle(h, d1, d2);
    ContainsExtendRight(h + d1 + d2, t, d1);
    ContainsMiddle(h + d1, d2, t);
  }

  /** Each of five consecutive pieces occurs in their concatenation. */
  lemma RootDeclares(h: string, d1: string, d2: string, d3: string, d4: string, d5: string, t: string)
    ensures var s := h + d1 + d2 + d3 + d4 + d5 + t;
            Contains(s, d1) && Contains(s, d2) && Contains(s, d3) && Contains(s, d4) && Contains(s, d5)
  {
    ContainsMiddle(h, d1, d2);
    ExtendRight3(h + d1 + d2, d3, d4, d5, d1);
    ContainsMiddle(h + d1, d2, d3);
    ExtendRight2(h + d1 + d2 + d3, d4, d5, d2);
    ContainsMiddle(h + d1 + d2, d3, d4);
    ContainsExtendRight(h + d1 + d2 + d3 + d4, d5, d3);
    ContainsMiddle(h + d1 + d2 + d3, d4, d5);
    ContainsExtendRight(h + d1 + d2 + d3 + d4 + d5, t, d1);
    ContainsExtendRight(h + d1 + d2 + d3 + d4 + d5, t, d2);
    ContainsExtendRight(h + d1 + d2 + d3 + d4 + d5, t, d3);
    ContainsExtendRight(h + d1 + d2 + d3 + d4 + d5, t, d4);
    ContainsMiddle(h + d1 + d2 + d3 + d4, d5, t);
  }

  lemma ExtendRight2(a: string, b: string, c: string, x: string)
    requires Contains(a, x)
    ensures Contains(a + b + c, x)
  {
    ContainsExtendRight(a, b, x);
    ContainsExtendRight(a + b, c, x);
  }

  lemma ExtendRight3(a: string, b: string, c: string, d: string, x: string)
    requires Contains(a, x)
    ensures Contains(a + b + c + d, x)
  {
    ExtendRight2(a, b, c, x);
    ContainsExtendRight(a + b + c, d, x);
  }

  // ---------------------------------------------------------------------
  // The manager's own state, as a value

  /** The fields `currentMode`, `isManualOverride` and `overrideUntil`
      (`None` is `null`). */
  datatype Control = Control(currentMode: Option<string>, isManualOverride: bool, overrideUntil: Option<int>)

  /** `Number(overrideUntil)`: `null` compares as 0. */
  function UntilNumber(u: Option<int>): int {
    if u.None? then 0 else u.value
  }

  /** `isManualOverride && Date.now() < overrideUntil`. */
  predicate OverrideRunning(c: Control, now: int) {
    c.isManualOverride && now < UntilNumber(c.overrideUntil)
  }

  /** applyTheme(mode) on the fields: a mode of the table becomes current,
      any other name changes nothing. */
  function Applied(c: Control, mode: string): Control {
    if LookupPalette(mode).Some? then c.(currentMode := Some(mode)) else c
  }

  /** Whether a check applies the schedule's mode: no override is running
      and the current mode is another one. */
  predicate TickApplies(c: Control, clock: Instant) {
    !OverrideRunning(c, clock.epochMs) && c.currentMode != Some(Name(CurrentTimeMode(clock.minute)))
  }

  /** The interval body: skip while the override runs, end an expired one,
      then apply the schedule's mode if it is not the current one. */
  function Ticked(c: Control, clock: Instant): Control {
    if OverrideRunning(c, clock.epochMs) then c
    else
      var ended := if c.isManualOverride then c.(isManualOverride := false, overrideUntil := None) else c;
      var m := Name(CurrentTimeMode(clock.minute));
      if ended.currentMode != Some(m) then Applied(ended, m) else ended
  }

  /** setThemeManually(mode, durationMs): the override is set whether or
      not the mode was applied. */
  function Manual(c: Control, mode: string, durationMs: int, now: int): Control {
    Applied(c, mode).(isManualOverride := true, overrideUntil := Some(now + durationMs))
  }

  /** clearManualOverride: both fields reset, then the schedule's mode. */
  function Released(c: Control, clock: Instant): Control {
    Applied(c.(isManualOverride := false, overrideUntil := None), Name(CurrentTimeMode(clock.minute)))
  }

  /** A check does nothing while the override runs; otherwise it ends any
      override and leaves the schedule's mode current; a second check under
      the same schedule mode changes nothing more. */
  lemma TickRules(c: Control, clock: Instant, later: Instant)
    requires later.epochMs >= clock.epochMs
    requires CurrentTimeMode(later.minute) == CurrentTimeMode(clock.minute)
    ensures OverrideRunning(c, clock.epochMs) ==> Ticked(c, clock) == c
    ensures !OverrideRunning(c, clock.epochMs) ==>
              && !Ticked(c, clock).isManualOverride
              && Ticked(c, clock).currentMode == Some(Name(CurrentTimeMode(clock.minute)))
              && (c.isManualOverride ==> Ticked(c, clock).overrideUntil == None)
              && (!c.isManualOverride ==> Ticked(c, clock).overrideUntil == c.overrideUntil)
              && !TickApplies(Ticked(c, clock), later)
              && Ticked(Ticked(c, clock), later) == Ticked(c, clock)
  {
    var m := CurrentTimeMode(clock.minute);
    assert LookupPalette(Name(m)).Some? by {
      ParseName(m);
    }
  }

  /** A manual setting always starts an override of exactly `durationMs`,
      even for a name the table does not know. */
  lemma ManualOverrideWindow(c: Control, mode: string, durationMs: int, now: int, later: int)
    ensures Manual(c, mode, durationMs, now).isManualOverride
    ensures OverrideRunning(Manual(c, mode, durationMs, now), later) <==> later < now + durationMs
    ensures Manual(c, mode, durationMs, now).currentMode ==
            (if LookupPalette(mode).Some? then Some(mode) else c.currentMode)
  {
  }

  /** clearManualOverride ends the override and leaves the schedule's mode
      current. */
  lemma ReleasedControl(c: Control, clock: Instant, later: int)
    ensures !OverrideRunning(Released(c, clock), later)
    ensures Released(c, clock).currentMode == Some(Name(CurrentTimeMode(clock.minute)))
  {
    ParseName(CurrentTimeMode(clock.minute));
  }

  /** What getStatus reports; `storedMode` is the field `currentMode`. */
  datatype SwitcherStatus = SwitcherStatus(currentMode: Mode, storedMode: Option<string>, isOverrideActive: bool,
                                           isAutoModeActive: bool, browserName: string)

  function StatusOf(v: Variant, c: Control, clock: Instant, autoActive: bool): SwitcherStatus {
    SwitcherStatus(CurrentTimeMode(clock.minute), c.currentMode, OverrideRunning(c, clock.epochMs),
                   autoActive, BrowserTag(v))
  }

  /** At 08:00, a night theme set by hand for one minute is reported as
      (day, night, overridden); the first check at or after the end of the
      minute returns to day and ends the override. */
  lemma ManualNightAtEight(v: Variant, start: int, later: Instant)
    requires later.epochMs >= start + 60000
    requires CurrentTimeMode(later.minute) == Day
    ensures var c := Manual(Applied(Control(None, false, None), "day"), "night", 60000, start);
            && StatusOf(v, c, Instant(start, WallClock(8, 0)), true) ==
               SwitcherStatus(Day, Some("night"), true, true, BrowserTag(v))
            && TickApplies(c, later)
            && Ticked(c, later) == Control(Some("day"), false, None)
  {
  }

  // ---------------------------------------------------------------------
  // The page, as a value

  /** The page after applyTheme with a known palette: the previous style
      with the switcher's id removed, the new one appended, and the
      attributes set. */
  function SwitcherThemed(v: Variant, pv: PageView, mode: string, css: string): PageView {
    PageView(WithoutFirst(pv.styles, StyleIdOf(v)) + [Style(StyleIdOf(v), css)],
             pv.body["data-time-mode" := mode],
             pv.root["data-hazeover-theme" := mode]["data-browser" := BrowserTag(v)])
  }

  function PageApplied(v: Variant, l: CssLayout, configCss: string, pv: PageView, mode: string): PageView {
    match LookupPalette(mode)
    case None => pv
    case Some(p) => SwitcherThemed(v, pv, mode, SwitcherCss(l, p, configCss))
  }

  /** After an application the switcher's style is unique (when it was at
      most once there before) and is the last one, its text the palette's
      css; the attributes name the mode and the browser tag. */
  lemma PageAppliedContents(v: Variant, l: CssLayout, configCss: string, pv: PageView, m: Mode)
    requires CountId(pv.styles, StyleIdOf(v)) <= 1
    ensures var t := PageApplied(v, l, configCss, pv, Name(m));
            && CountId(t.styles, StyleIdOf(v)) == 1
            && |t.styles| > 0 && t.styles[|t.styles| - 1] == Style(StyleIdOf(v), SwitcherCss(l, PaletteOf(m), configCss))
            && "data-time-mode" in t.body && t.body["data-time-mode"] == Name(m)
            && "data-hazeover-theme" in t.root && t.root["data-hazeover-theme"] == Name(m)
            && "data-browser" in t.root && t.root["data-browser"] == BrowserTag(v)
  {
    var css := SwitcherCss(l, PaletteOf(m), configCss);
    PageAppliedKnown(v, l, configCss, pv, m);
    SwitcherThemedContents(v, pv, Name(m), css);
  }

  lemma SwitcherThemedContents(v: Variant, pv: PageView, mode: string, css: string)
    requires CountId(pv.styles, StyleIdOf(v)) <= 1
    ensures var t := SwitcherThemed(v, pv, mode, css);
            && CountId(t.styles, StyleIdOf(v)) == 1
            && |t.styles| > 0 && t.styles[|t.styles| - 1] == Style(StyleIdOf(v), css)
            && "data-time-mode" in t.body && t.body["data-time-mode"] == mode
            && "data-hazeover-theme" in t.root && t.root["data-hazeover-theme"] == mode
            && "data-browser" in t.root && t.root["data-browser"] == BrowserTag(v)
  {
    ReplaceKeepsUnique(pv.styles, StyleIdOf(v), css);
    assert "data-hazeover-theme" != "data-browser" by {
      assert "data-hazeover-theme"[5] != "data-browser"[5];
    }
  }

  /** For a mode's own name the palette is found. */
  lemma PageAppliedKnown(v: Variant, l: CssLayout, configCss: string, pv: PageView, m: Mode)
    ensures PageApplied(v, l, configCss, pv, Name(m)) == SwitcherThemed(v, pv, Name(m), SwitcherCss(l, PaletteOf(m), configCss))
  {
    ParseName(m);
  }

  /** destroy keeps the style at most once, and removes it when it was
      unique. */
  lemma DestroyRemovesStyle(v: Variant, pv: PageView)
    requires CountId(pv.styles, StyleIdOf(v)) <= 1
    ensures CountId(WithoutFirst(pv.styles, StyleIdOf(v)), StyleIdOf(v)) == 0
  {
    WithoutFirstCounts(pv.styles, StyleIdOf(v), StyleIdOf(v) + "-");
  }

  /** `JSON.stringify` of a table key: the name in double quotes (the
      names hold no character that needs escaping). */
  function Quoted(s: string): string {
    "\"" + s + "\""
  }

  /** The page's `localStorage` after applyTheme: for a known palette the
      item `hazeover-theme-mode` holds the quoted mode; a store that throws
      is left alone (the inline `set` catches and answers `false`). */
  function StoreApplied(available: bool, items: map<string, string>, mode: string): map<string, string> {
    if LookupPalette(mode).Some? && available then items[Prefix + "mode" := Quoted(mode)] else items
  }

  // ---------------------------------------------------------------------
  // Messages

  /** A runtime message: its `action` and `mode` fields. */
  datatype Message = Message(action: string, mode: string)

  /** The answers the listener sends back. */
  datatype Response =
    | Done(applied: Option<string>)
    | ModeReply(mode: string)
    | StatusReply(status: SwitcherStatus)
    | Failure(error: string)

  /** The answer the listener gives to a message: `updateTheme` reports
      success with the message's mode, `getCurrentMode` the schedule's mode
      (or `unknown` before the shared utilities are loaded), and any other
      action an error. */
  function Reply(msg: Message, loaded: bool, clock: Instant, status: SwitcherStatus): Response {
    match msg.action
    case "updateTheme" => Done(Some(msg.mode))
    case "getCurrentMode" => ModeReply(if loaded then Name(CurrentTimeMode(clock.minute)) else "unknown")
    case "clearOverride" => Done(None)
    case "getStatus" => StatusReply(status)
    case _ => Failure("Unknown action")
  }

  /** The mode a message applies to the page and the store: its own for
      `updateTheme`, the schedule's for `clearOverride`, none otherwise. */
  function AppliedBy(msg: Message, clock: Instant): (m: Option<string>)
    ensures m.Some? <==> msg.action in {"updateTheme", "clearOverride"}
  {
    match msg.action
    case "updateTheme" => Some(msg.mode)
    case "clearOverride" => Some(Name(CurrentTimeMode(clock.minute)))
    case _ => None
  }

  /** The fields after a message. */
  function ControlAfter(msg: Message, c: Control, clock: Instant): Control {
    match msg.action
    case "updateTheme" => Manual(c, msg.mode, TestOverrideMs, clock.epochMs)
    case "clearOverride" => Released(c, clock)
    case _ => c
  }

  /** An `updateTheme` message starts a five-minute override; unknown
      actions change nothing and answer `Unknown action`. */
  lemma MessageEffects(msg: Message, c: Control, loaded: bool, clock: Instant, status: SwitcherStatus, later: int)
    ensures msg.action == "updateTheme" ==>
              && Reply(msg, loaded, clock, status) == Done(Some(msg.mode))
              && (OverrideRunning(ControlAfter(msg, c, clock), later) <==> later < clock.epochMs + 300000)
    ensures msg.action !in {"updateTheme", "getCurrentMode", "clearOverride", "getStatus"} ==>
              Reply(msg, loaded, clock, status) == Failure("Unknown action") && ControlAfter(msg, c, clock) == c
  {
    ManualOverrideWindow(c, msg.mode, TestOverrideMs, clock.epochMs, later);
  }

  // ---------------------------------------------------------------------
  // The manager object

  class SharedThemeManager {
    const variant: Variant
    /** The fixed text of the variant's css. */
    const layout: CssLayout
    /** The configuration's `customCSS`. */
    const configCss: string
    /** The page's `localStorage`, which the inline store writes under the
        shared prefix. */
    const storage: WebStorage
    const page: Page
    const timers: Timers
    var currentMode: Option<string>
    var intervalId: Option<nat>
    var isManualOverride: bool
    var overrideUntil: Option<int>
    /** Whether loadSharedUtilities has run. */
    var loaded: bool

    constructor(variant: Variant, configCss: string, storage: WebStorage, page: Page, timers: Timers)
      ensures this.variant == variant && layout == LayoutOf(variant) && this.configCss == configCss
      ensures this.storage == storage && this.page == page && this.timers == timers
      ensures Fields() == Control(None, false, None) && intervalId == None && !loaded
    {
      this.variant := variant;
      layout := LayoutOf(variant);
      this.configCss := configCss;
      this.storage := storage;
      this.page := page;
      this.timers := timers;
      currentMode := None;
      intervalId := None;
      isManualOverride := false;
      overrideUntil := None;
      loaded := false;
    }

    function Fields(): Control
      reads this
    {
      Control(currentMode, isManualOverride, overrideUntil)
    }

    /** applyTheme(mode): an unknown name answers `false` and changes
        nothing. */
    method ApplyTheme(mode: string) returns (r: bool)
      modifies this, page, storage
      ensures r <==> LookupPalette(mode).Some?
      ensures Fields() == Applied(old(Fields()), mode)
      ensures page.View() == PageApplied(variant, layout, configCss, old(page.View()), mode)
      ensures storage.items == StoreApplied(storage.available, old(storage.items), mode)
      ensures intervalId == old(intervalId) && loaded == old(loaded)
    {
      var colors := LookupPalette(mode);
      if colors.None? {
        return false;
      }
      page.RemoveById(StyleIdOf(variant));
      var css := SwitcherCss(layout, colors.value, configCss);
      page.AppendStyle(Style(StyleIdOf(variant), css));
      page.SetBodyAttribute("data-time-mode", mode);
      page.SetRootAttribute("data-hazeover-theme", mode);
      page.SetRootAttribute("data-browser", BrowserTag(variant));
      currentMode := Some(mode);
      var _ := storage.SetItem(Prefix + "mode", Quoted(mode));
      r := true;
    }

    /** The body of the interval startAutoMode installs. */
    method Tick(clock: Instant)
      modifies this, page, storage
      ensures Fields() == Ticked(old(Fields()), clock)
      ensures var m := Name(CurrentTimeMode(clock.minute));
              && page.View() == (if TickApplies(old(Fields()), clock)
                                 then PageApplied(variant, layout, configCss, old(page.View()), m) else old(page.View()))
              && storage.items == (if TickApplies(old(Fields()), clock)
                                     then StoreApplied(storage.available, old(storage.items), m) else old(storage.items))
      ensures intervalId == old(intervalId) && loaded == old(loaded)
    {
      if isManualOverride && clock.epochMs < UntilNumber(overrideUntil) {
        return;
      }
      if isManualOverride && clock.epochMs >= UntilNumber(overrideUntil) {
        isManualOverride := false;
        overrideUntil := None;
      }
      var newMode := Name(CurrentTimeMode(clock.minute));
      if Some(newMode) != currentMode {
        var _ := ApplyTheme(newMode);
      }
    }

    /** startAutoMode: an existing interval is cleared, and a new one every
        minute takes its place. */
    method StartAutoMode()
      requires timers.Valid()
      modifies this, timers
      ensures timers.Valid() && Fields() == old(Fields()) && loaded == old(loaded)
      ensures intervalId.Some? && intervalId.value !in old(timers.intervals)
      ensures timers.intervals ==
              (if old(intervalId).Some? then old(timers.intervals) - {old(intervalId).value}
               else old(timers.intervals))[intervalId.value := 60000]
      ensures timers.timeouts == old(timers.timeouts)
    {
      if intervalId.Some? {
        timers.ClearInterval(intervalId.value);
      }
      var id := timers.SetInterval(60000);
      intervalId := Some(id);
    }

    /** initialize: load the utilities, apply the schedule's mode, start the
        checks. */
    method Initialize(clock: Instant) returns (mode: string)
      requires timers.Valid()
      modifies this, page, storage, timers
      ensures timers.Valid() && loaded
      ensures mode == Name(CurrentTimeMode(clock.minute))
      ensures Fields() == Applied(old(Fields()), mode)
      ensures page.View() == PageApplied(variant, layout, configCss, old(page.View()), mode)
      ensures storage.items == StoreApplied(storage.available, old(storage.items), mode)
      ensures intervalId.Some? && intervalId.value !in old(timers.intervals)
      ensures timers.intervals ==
              (if old(intervalId).Some? then old(timers.intervals) - {old(intervalId).value}
               else old(timers.intervals))[intervalId.value := 60000]
      ensures timers.timeouts == old(timers.timeouts)
    {
      loaded := true;
      mode := Name(CurrentTimeMode(clock.minute));
      var _ := ApplyTheme(mode);
      StartAutoMode();
    }

    /** setThemeManually(mode, durationMs): always answers `true`. */
    method SetThemeManually(mode: string, durationMs: int, clock: Instant) returns (r: bool)
      modifies this, page, storage
      ensures r
      ensures Fields() == Manual(old(Fields()), mode, durationMs, clock.epochMs)
      ensures page.View() == PageApplied(variant, layout, configCss, old(page.View()), mode)
      ensures storage.items == StoreApplied(storage.available, old(storage.items), mode)
      ensures intervalId == old(intervalId) && loaded == old(loaded)
    {
      var _ := ApplyTheme(mode);
      isManualOverride := true;
      overrideUntil := Some(clock.epochMs + durationMs);
      r := true;
    }

    method ClearManualOverride(clock: Instant) returns (r: bool)
      modifies this, page, storage
      ensures r
      ensures Fields() == Released(old(Fields()), clock)
      ensures page.View() == PageApplied(variant, layout, configCss, old(page.View()), Name(CurrentTimeMode(clock.minute)))
      ensures storage.items == StoreApplied(storage.available, old(storage.items), Name(CurrentTimeMode(clock.minute)))
      ensures intervalId == old(intervalId) && loaded == old(loaded)
    {
      isManualOverride := false;
      overrideUntil := None;
      var _ := ApplyTheme(Name(CurrentTimeMode(clock.minute)));
      r := true;
    }

    method GetStatus(clock: Instant) returns (s: SwitcherStatus)
      ensures s == StatusOf(variant, Fields(), clock, intervalId.Some?)
    {
      s := SwitcherStatus(CurrentTimeMode(clock.minute), currentMode,
                          isManualOverride && clock.epochMs < UntilNumber(overrideUntil),
                          intervalId.Some?, BrowserTag(variant));
    }

    /** destroy: the interval is cleared and forgotten, the style removed. */
    method Destroy()
      requires timers.Valid()
      modifies this, page, timers
      ensures timers.Valid() && intervalId == None && Fields() == old(Fields())
      ensures page.View() == old(page.View()).(styles := WithoutFirst(old(page.styles), StyleIdOf(variant)))
      ensures timers.intervals == (if old(intervalId).Some? then old(timers.intervals) - {old(intervalId).value}
                                   else old(timers.intervals))
      ensures timers.timeouts == old(timers.timeouts) && loaded == old(loaded)
    {
      if intervalId.Some? {
        timers.ClearInterval(intervalId.value);
        intervalId := None;
      }
      page.RemoveById(StyleIdOf(variant));
    }

    /** The runtime message listener, with the manager in place. */
    method HandleMessage(msg: Message, clock: Instant) returns (resp: Response)
      modifies this, page, storage
      ensures resp == Reply(msg, old(loaded), clock, StatusOf(variant, old(Fields()), clock, old(intervalId).Some?))
      ensures Fields() == ControlAfter(msg, old(Fields()), clock)
      ensures intervalId == old(intervalId) && loaded == old(loaded)
      ensures var m := AppliedBy(msg, clock);
              page.View() == (if m.Some? then PageApplied(variant, layout, configCss, old(page.View()), m.value)
                              else old(page.View()))
      ensures var m := AppliedBy(msg, clock);
              storage.items == (if m.Some? then StoreApplied(storage.available, old(storage.items), m.value)
                                else old(storage.items))
    {
      var status := GetStatus(clock);
      match msg.action {
        case "updateTheme" =>
          var _ := SetThemeManually(msg.mode, TestOverrideMs, clock);
          resp := Done(Some(msg.mode));
        case "getCurrentMode" =>
          resp := ModeReply(if loaded then Name(CurrentTimeMode(clock.minute)) else "unknown");
        case "clearOverride" =>
          var _ := ClearManualOverride(clock);
          resp := Done(None);
        case "getStatus" =>
          resp := StatusReply(status);
        case _ =>
          resp := Failure("Unknown action");
      }
    }
  }
}
