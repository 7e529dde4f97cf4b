/** The shared theme manager: it applies a browser theme to the page,
    records the mode in storage, runs the minute-by-minute automatic check
    and the one-hour manual override. */
module ThemeManager {
  import opened Wrappers
  import opened Strings
  import opened Modes
  import opened ThemeScheduler
  import opened BaseThemes
  import opened StorageManager
  import opened Host

  /** The id of the manager's theme style. */
  function StyleId(browserName: string): string {
    "hazeover-" + browserName + "-theme-style"
  }

  /** The manager's own style is one the theme selector matches. */
  lemma StyleIdIsThemeStyle(browserName: string, css: string)
    ensures IsThemeStyle(Style(StyleId(browserName), css))
  {
    var rest := "-" + browserName + "-theme-style";
    assert StyleId(browserName) == "hazeover" + rest;
    ContainsOwnPrefix("hazeover", rest);
  }

  /** removeExistingTheme: every style the selector matches and the three
      mode attributes go. */
  function Cleared(v: PageView): PageView {
    PageView(WithoutThemeStyles(v.styles),
             v.body - {"data-time-mode"},
             v.root - {"data-hazeover-theme", "data-theme-mode"})
  }

  /** The page after a theme is applied: cleared, the theme's style
      appended, and the mode and browser attributes set. */
  function Themed(v: PageView, browserName: string, mode: string, css: string): PageView {
    var c := Cleared(v);
    PageView(c.styles + [Style(StyleId(browserName), css)],
             c.body["data-time-mode" := mode],
             c.root["data-hazeover-theme" := mode]["data-theme-mode" := mode]["data-browser" := browserName])
  }

  /** After an application exactly one theme style is left, the manager's
      own one carrying the css, and it is the last style; every style the
      selector does not match stays. */
  lemma ThemedStyles(v: PageView, browserName: string, mode: string, css: string, s: Style)
    ensures var t := Themed(v, browserName, mode, css).styles;
            && CountThemeStyles(t) == 1
            && t[|t| - 1] == Style(StyleId(browserName), css)
            && (s in t && IsThemeStyle(s) ==> s == Style(StyleId(browserName), css))
            && (s in t && !IsThemeStyle(s) <==> s in v.styles && !IsThemeStyle(s))
  {
    var own := Style(StyleId(browserName), css);
    var kept := WithoutThemeStyles(v.styles);
    StyleIdIsThemeStyle(browserName, css);
    WithoutThemeStylesCount(v.styles);
    CountThemeStylesAppend(kept, [own]);
    assert [own][1..] == [];
    WithoutThemeStylesKeeps(v.styles, s);
  }

  /** After an application the three mode attributes hold the mode,
      `data-browser` the browser's name, and every other attribute is as it
      was. */
  lemma ThemedAttributes(v: PageView, browserName: string, mode: string, css: string, a: string)
    ensures var t := Themed(v, browserName, mode, css);
            && t.body["data-time-mode"] == mode
            && t.root["data-hazeover-theme"] == mode && t.root["data-theme-mode"] == mode
            && t.root["data-browser"] == browserName
            && (a != "data-time-mode" ==> (a in t.body <==> a in v.body) && (a in v.body ==> t.body[a] == v.body[a]))
            && (a !in {"data-hazeover-theme", "data-theme-mode", "data-browser"} ==>
                  (a in t.root <==> a in v.root) && (a in v.root ==> t.root[a] == v.root[a]))
  {
  }

  /** Applying the same theme twice leaves the page as applying it once. */
  lemma ThemedIdempotent(v: PageView, browserName: string, mode: string, css: string)
    ensures Themed(Themed(v, browserName, mode, css), browserName, mode, css) == Themed(v, browserName, mode, css)
  {
    var once := Themed(v, browserName, mode, css);
    var twice := Themed(once, browserName, mode, css);
    StyleIdIsThemeStyle(browserName, css);
    ThemedStylesTwice(v.styles, Style(StyleId(browserName), css));
    ThemedBodyTwice(v.body, mode);
    ThemedRootTwice(v.root, browserName, mode);
    assert twice.styles == once.styles && twice.body == once.body && twice.root == once.root;
  }

  /** Clearing an applied page removes just the style the application added. */
  lemma ThemedStylesTwice(ss: seq<Style>, own: Style)
    requires IsThemeStyle(own)
    ensures WithoutThemeStyles(WithoutThemeStyles(ss) + [own]) + [own] == WithoutThemeStyles(ss) + [own]
  {
    var kept := WithoutThemeStyles(ss);
    WithoutThemeStylesAppend(kept, [own]);
    WithoutThemeStylesIdempotent(ss);
    assert [own][1..] == [];
    assert WithoutThemeStyles([own]) == [];
    assert kept + [] == kept;
  }

  lemma ThemedBodyTwice(b: map<string, string>, mode: string)
    ensures ((b - {"data-time-mode"})["data-time-mode" := mode] - {"data-time-mode"})["data-time-mode" := mode]
            == (b - {"data-time-mode"})["data-time-mode" := mode]
  {
  }

  lemma ThemedRootTwice(r: map<string, string>, browserName: string, mode: string)
    ensures var once := (r - {"data-hazeover-theme", "data-theme-mode"})["data-hazeover-theme" := mode]["data-theme-mode" := mode]["data-browser" := browserName];
            (once - {"data-hazeover-theme", "data-theme-mode"})["data-hazeover-theme" := mode]["data-theme-mode" := mode]["data-browser" := browserName] == once
  {
    RootKeysDiffer();
  }

  /** The root attributes the manager writes are three different names. */
  lemma RootKeysDiffer()
    ensures "data-hazeover-theme" != "data-theme-mode" && "data-hazeover-theme" != "data-browser"
    ensures "data-theme-mode" != "data-browser"
  {
    assert "data-hazeover-theme"[5] != "data-theme-mode"[5];
    assert "data-hazeover-theme"[5] != "data-browser"[5];
    assert "data-theme-mode"[5] != "data-browser"[5];
  }

  /** The storage side of applyTheme: setCurrentMode and, for a manual
      application, setManualOverride with its default hour. A rejected
      storage call is caught and turns the answer into `false`. */
  function StoreApplied(b: Backend, e: map<string, Value>, mode: string, isManual: bool, now: int): Outcome {
    var s := WriteMode(b, e, mode, now);
    if s.result.Err? then Outcome(s.entries, Ok(false))
    else if !isManual then Outcome(s.entries, Ok(true))
    else
      var o := WriteOverride(b, s.entries, mode, DefaultOverrideMs, now);
      Outcome(o.entries, Ok(o.result.Ok?))
  }

  /** On an attached backend an application succeeds and stores the mode; a
      manual one also starts an override that lasts exactly one hour,
      whatever duration the caller asked for. A refused write is not
      reported: the answer stays `true` and the refused item keeps its old
      value. */
  lemma StoreAppliedContents(b: Backend, e: map<string, Value>, m: Mode, isManual: bool, now: int, later: int)
    requires Attached(b)
    ensures var o := StoreApplied(b, e, Name(m), isManual, now);
            && o.result == Ok(true)
            && Read(b, o.entries, "mode", Null) ==
               (if Refuses(b, "mode") then Read(b, e, "mode", Null) else Ok(Str(Name(m))))
            && (isManual && now + DefaultOverrideMs != 0
                && !Refuses(b, "manual-override") && !Refuses(b, "manual-until") ==>
                  OverrideActive(b, o.entries, later) == Ok(later < now + DefaultOverrideMs))
  {
    var s := WriteMode(b, e, Name(m), now);
    WriteModeStoresBoth(b, e, Name(m), now);
    if isManual {
      OverrideWindow(b, s.entries, Name(m), DefaultOverrideMs, now, later);
      if Refuses(b, "mode") {
        var km := Prefix + "mode";
        assert km != Prefix + "manual-override" && km != Prefix + "manual-until" by {
          assert km[|Prefix| + 1] != (Prefix + "manual-override")[|Prefix| + 1];
          assert km[|Prefix| + 1] != (Prefix + "manual-until")[|Prefix| + 1];
        }
      }
    }
  }

  /** Whether an automatic check changes anything: the override is off and
      the stored mode differs from the schedule's (a storage call that
      rejects ends the check). */
  predicate TickApplies(b: Backend, e: map<string, Value>, clock: Instant) {
    && OverrideActive(b, e, clock.epochMs) == Ok(false)
    && Read(b, e, "mode", Null).Ok?
    && Read(b, e, "mode", Null).value != Str(Name(CurrentTimeMode(clock.minute)))
  }

  /** On an attached backend, once a check has applied the schedule's mode
      the next check changes nothing until the schedule's mode changes, and
      no check changes anything while an override runs. When the store
      refuses the mode, an application leaves the store as it was, so a
      check that applied will apply again. */
  lemma TickSettles(b: Backend, e: map<string, Value>, clock: Instant, later: Instant)
    requires Attached(b)
    requires CurrentTimeMode(later.minute) == CurrentTimeMode(clock.minute)
    ensures !Refuses(b, "mode") ==>
              !TickApplies(b, StoreApplied(b, e, Name(CurrentTimeMode(clock.minute)), false, clock.epochMs).entries, later)
    ensures Refuses(b, "mode") ==>
              StoreApplied(b, e, Name(CurrentTimeMode(clock.minute)), false, clock.epochMs).entries == e
    ensures OverrideActive(b, e, clock.epochMs) == Ok(true) ==> !TickApplies(b, e, clock)
  {
    StoreAppliedContents(b, e, CurrentTimeMode(clock.minute), false, clock.epochMs, later.epochMs);
  }

  /** What getStatus reports. */
  datatype Status = Status(currentMode: Mode, storedMode: Value, isOverrideActive: bool,
                           nextTransition: Option<Transition>, isAutoModeActive: bool,
                           isInitialized: bool, browserName: string)

  class ThemeManager {
    const browserName: string
    const browserSelectors: map<string, seq<string>>
    const customCss: string
    /** The CSS template of the shared themes module. */
    const template: CssTemplate
    /** The module-wide storage instance. */
    const storage: StorageManager
    const page: Page
    const timers: Timers
    var intervalId: Option<nat>
    var isInitialized: bool

    constructor(browserName: string, browserSelectors: map<string, seq<string>>, customCss: string,
                storage: StorageManager, page: Page, timers: Timers)
      ensures this.browserName == browserName && this.browserSelectors == browserSelectors
      ensures this.customCss == customCss && template == BaseCssTemplate
      ensures this.storage == storage && this.page == page && this.timers == timers
      ensures intervalId == None && !isInitialized
    {
      this.browserName := browserName;
      this.browserSelectors := browserSelectors;
      this.customCss := customCss;
      template := BaseCssTemplate;
      this.storage := storage;
      this.page := page;
      this.timers := timers;
      intervalId := None;
      isInitialized := false;
    }

    /** The css of the browser theme for a valid mode. */
    function ThemeCss(mode: string): string
      requires IsValidThemeMode(mode)
    {
      ModeNamesAreTheModes(mode);
      CreateBrowserTheme(template, mode, browserName, browserSelectors, customCss, 0).value.css
    }

    method RemoveExistingTheme()
      modifies page
      ensures page.View() == Cleared(old(page.View()))
    {
      page.RemoveThemeStyles();
      page.RemoveBodyAttribute("data-time-mode");
      page.RemoveRootAttribute("data-hazeover-theme");
      page.RemoveRootAttribute("data-theme-mode");
      assert page.rootAttrs == old(page.rootAttrs) - {"data-hazeover-theme", "data-theme-mode"};
    }

    method InjectThemeCss(css: string)
      modifies page
      ensures page.View() == old(page.View()).(styles := old(page.styles) + [Style(StyleId(browserName), css)])
    {
      page.AppendStyle(Style("hazeover-" + browserName + "-theme-style", css));
    }

    method SetDocumentAttributes(mode: string)
      modifies page
      ensures page.View() == old(page.View()).(
                body := old(page.bodyAttrs)["data-time-mode" := mode],
                root := old(page.rootAttrs)["data-hazeover-theme" := mode]["data-theme-mode" := mode]["data-browser" := browserName])
    {
      page.SetBodyAttribute("data-time-mode", mode);
      page.SetRootAttribute("data-hazeover-theme", mode);
      page.SetRootAttribute("data-theme-mode", mode);
      page.SetRootAttribute("data-browser", browserName);
    }

    /** applyTheme(mode, isManual). An invalid mode throws before anything
        changes. */
    method ApplyTheme(mode: string, isManual: bool, clock: Instant) returns (r: Result<bool>)
      modifies page, storage
      ensures !IsValidThemeMode(mode) ==>
                && r == Err("Invalid theme mode: " + mode)
                && page.View() == old(page.View()) && storage.entries == old(storage.entries)
      ensures IsValidThemeMode(mode) ==>
                && page.View() == Themed(old(page.View()), browserName, mode, ThemeCss(mode))
                && Outcome(storage.entries, r) ==
                   StoreApplied(storage.backend, old(storage.entries), mode, isManual, clock.epochMs)
    {
      if !IsValidThemeMode(mode) {
        return Err("Invalid theme mode: " + mode);
      }
      ModeNamesAreTheModes(mode);
      var theme := CreateBrowserTheme(template, mode, browserName, browserSelectors, customCss, clock.epochMs);
      RemoveExistingTheme();
      InjectThemeCss(theme.value.css);
      SetDocumentAttributes(mode);
      var stored := storage.SetCurrentMode(mode, clock.epochMs);
      if stored.Err? {
        return Ok(false);
      }
      if isManual {
        var overridden := storage.SetManualOverride(mode, DefaultOverrideMs, clock.epochMs);
        if overridden.Err? {
          return Ok(false);
        }
      }
      r := Ok(true);
    }

    /** The body of the interval startAutoMode installs. */
    method Tick(clock: Instant)
      modifies page, storage
      ensures TickApplies(storage.backend, old(storage.entries), clock) ==>
                && page.View() == Themed(old(page.View()), browserName, Name(CurrentTimeMode(clock.minute)),
                                         ThemeCss(Name(CurrentTimeMode(clock.minute))))
                && storage.entries == StoreApplied(storage.backend, old(storage.entries),
                                                   Name(CurrentTimeMode(clock.minute)), false, clock.epochMs).entries
      ensures !TickApplies(storage.backend, old(storage.entries), clock) ==>
                page.View() == old(page.View()) && storage.entries == old(storage.entries)
    {
      var active := storage.IsManualOverrideActive(clock.epochMs);
      if active.Err? || active.value {
        return;
      }
      var newMode := Name(CurrentTimeMode(clock.minute));
      var current := storage.GetCurrentMode();
      if current.Err? {
        return;
      }
      if current.value != Str(newMode) {
        var _ := ApplyTheme(newMode, false, clock);
      }
    }

    /** stopAutoMode: the running interval, if any, is cleared and forgotten. */
    method StopAutoMode()
      requires timers.Valid()
      modifies this, timers
      ensures timers.Valid() && intervalId == None && isInitialized == old(isInitialized)
      ensures timers.intervals == (if old(intervalId).Some? then old(timers.intervals) - {old(intervalId).value}
                                   else old(timers.intervals))
      ensures timers.timeouts == old(timers.timeouts) && timers.nextId == old(timers.nextId)
    {
      if intervalId.Some? {
        timers.ClearInterval(intervalId.value);
        intervalId := None;
      }
    }

    /** startAutoMode(intervalMs): the previous interval is stopped first,
        so the manager never owns more than one. */
    method StartAutoMode(intervalMs: int)
      requires timers.Valid()
      modifies this, timers
      ensures timers.Valid() && intervalId.Some? && isInitialized == old(isInitialized)
      ensures intervalId.value !in old(timers.intervals)
      ensures timers.intervals ==
              (if old(intervalId).Some? then old(timers.intervals) - {old(intervalId).value}
               else old(timers.intervals))[intervalId.value := intervalMs]
      ensures timers.timeouts == old(timers.timeouts)
    {
      StopAutoMode();
      var id := timers.SetInterval(intervalMs);
      intervalId := Some(id);
    }

    /** initialize(startAutoMode): apply the schedule's mode, then start the
        checks every minute if asked. */
    method Initialize(startAutoMode: bool, clock: Instant) returns (mode: string)
      requires timers.Valid()
      modifies this, page, storage, timers
      ensures timers.Valid() && isInitialized
      ensures mode == Name(CurrentTimeMode(clock.minute))
      ensures page.View() == Themed(old(page.View()), browserName, mode, ThemeCss(mode))
      ensures storage.entries == StoreApplied(storage.backend, old(storage.entries), mode, false, clock.epochMs).entries
      ensures startAutoMode ==>
                && intervalId.Some? && intervalId.value !in old(timers.intervals)
                && timers.intervals ==
                   (if old(intervalId).Some? then old(timers.intervals) - {old(intervalId).value}
                    else old(timers.intervals))[intervalId.value := 60000]
      ensures !startAutoMode ==> intervalId == old(intervalId) && timers.intervals == old(timers.intervals)
      ensures timers.timeouts == old(timers.timeouts)
    {
      mode := Name(CurrentTimeMode(clock.minute));
      ClassifierAnswersValidName(clock.minute);
      var _ := ApplyTheme(mode, false, clock);
      if startAutoMode {
        StartAutoMode(60000);
      }
      isInitialized := true;
    }

    /** setThemeManually(mode, durationMs): a manual application, whose
        override is recorded with the default hour, and a timeout of
        `durationMs` that will clear it. */
    method SetThemeManually(mode: string, durationMs: int, clock: Instant) returns (r: Result<bool>)
      requires timers.Valid()
      modifies page, storage, timers
      ensures timers.Valid() && timers.intervals == old(timers.intervals)
      ensures !IsValidThemeMode(mode) ==>
                && r == Err("Invalid theme mode: " + mode)
                && page.View() == old(page.View()) && storage.entries == old(storage.entries)
                && timers.timeouts == old(timers.timeouts)
      ensures IsValidThemeMode(mode) ==>
                && page.View() == Themed(old(page.View()), browserName, mode, ThemeCss(mode))
                && Outcome(storage.entries, r) ==
                   StoreApplied(storage.backend, old(storage.entries), mode, true, clock.epochMs)
                && (r == Ok(true) ==> exists id: nat :: id !in old(timers.timeouts) &&
                                         timers.timeouts == old(timers.timeouts)[id := durationMs])
                && (r != Ok(true) ==> timers.timeouts == old(timers.timeouts))
    {
      r := ApplyTheme(mode, true, clock);
      if r == Ok(true) {
        var id := timers.SetTimeout(durationMs);
      }
    }

    /** clearManualOverride: the stored override goes, then the schedule's
        mode is applied; a rejected storage call answers `false`. */
    method ClearManualOverride(clock: Instant) returns (r: bool)
      modifies page, storage
      ensures var cleared := DeleteOverride(storage.backend, old(storage.entries));
              var mode := Name(CurrentTimeMode(clock.minute));
              && r == cleared.result.Ok?
              && (r ==> && page.View() == Themed(old(page.View()), browserName, mode, ThemeCss(mode))
                        && storage.entries == StoreApplied(storage.backend, cleared.entries, mode, false, clock.epochMs).entries)
              && (!r ==> page.View() == old(page.View()) && storage.entries == old(storage.entries))
    {
      var cleared := storage.ClearManualOverride();
      if cleared.Err? {
        return false;
      }
      var _ := ApplyTheme(Name(CurrentTimeMode(clock.minute)), false, clock);
      r := true;
    }

    /** getStatus; a storage call that rejects makes the whole call reject. */
    method GetStatus(clock: Instant) returns (r: Result<Status>)
      ensures var stored := Read(storage.backend, storage.entries, "mode", Null);
              var active := OverrideActive(storage.backend, storage.entries, clock.epochMs);
              && (r.Ok? <==> stored.Ok? && active.Ok?)
              && (r.Ok? ==> r.value == Status(CurrentTimeMode(clock.minute), stored.value, active.value,
                                              NextTransition(Some(Name(CurrentTimeMode(clock.minute))), clock.minute),
                                              intervalId.Some?, isInitialized, browserName))
    {
      var currentMode := CurrentTimeMode(clock.minute);
      var storedMode := storage.GetCurrentMode();
      if storedMode.Err? {
        return Err(storedMode.message);
      }
      var active := storage.IsManualOverrideActive(clock.epochMs);
      if active.Err? {
        return Err(active.message);
      }
      var next := NextTransition(Some(Name(currentMode)), clock.minute);
      r := Ok(Status(currentMode, storedMode.value, active.value, next, intervalId.Some?, isInitialized, browserName));
    }

    /** destroy: stop the checks, clear the page, and forget initialisation. */
    method Destroy()
      requires timers.Valid()
      modifies this, page, timers
      ensures timers.Valid() && intervalId == None && !isInitialized
      ensures page.View() == Cleared(old(page.View()))
      ensures timers.intervals == (if old(intervalId).Some? then old(timers.intervals) - {old(intervalId).value}
                                   else old(timers.intervals))
      ensures timers.timeouts == old(timers.timeouts)
    {
      StopAutoMode();
      RemoveExistingTheme();
      isInitialized := false;
    }
  }
}
