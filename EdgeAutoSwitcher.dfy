/** The Edge Canary content script that switches by itself: it keeps the
    mode and the override as plain strings in `localStorage`, appends an
    inline body override on every application, and starts a fresh
    minute-interval on each (re)initialisation. */
module EdgeAutoSwitcher {
  import opened Wrappers
  import opened Strings
  import opened Modes
  import opened ThemeScheduler
  import S = SharedSwitcher
  import opened Host

  const ModeKey: string := "edge-canary-theme-mode"
  const LastUpdateKey: string := "edge-canary-theme-last-update"
  const OverrideKey: string := "edge-canary-theme-manual-override"
  const UntilKey: string := "edge-canary-theme-manual-until"
  const ThemeStyleId: string := "hazeover-edge-canary-theme-style"
  const InlineStyleId: string := "hazeover-edge-canary-inline-override"
  /** The override length and its clearing timer, one hour. */
  const OverrideMs: int := 3600000
  const CheckMs: int := 60000

  /** The `css` texts of THEMES, one per mode. Their colours are the
      five-colour table `PaletteOf`. */
  datatype Catalogue = Catalogue(day: string, evening: string, night: string)

  function CssOf(c: Catalogue, m: Mode): string {
    match m
    case Day => c.day
    case Evening => c.evening
    case Night => c.night
  }

  /** The fixed text of the inline override around the mode name and the
      background and text colours. */
  datatype InlineLayout = InlineLayout(open: string, afterMode: string, afterBg: string, close: string)

  const InlineText: InlineLayout :=
    InlineLayout("\n    /* HazeOver Inline Override for Edge Canary ", " mode */\n    body { \n      background: ",
                 " !important; \n      color: ", " !important; \n    }\n  ")

  function InlineOverride(l: InlineLayout, m: Mode): string {
    l.open + Name(m) + l.afterMode + S.PaletteOf(m).bg + l.afterBg + S.PaletteOf(m).text + l.close
  }

  // ---------------------------------------------------------------------
  // The page and the store, as values

  /** The page after applyTheme(m): the theme style replaced and placed
      after the others, the three attributes set, and one more inline
      override appended after it. */
  function AutoThemed(pv: PageView, c: Catalogue, l: InlineLayout, m: Mode): PageView {
    PageView(WithoutFirst(pv.styles, ThemeStyleId) + [Style(ThemeStyleId, CssOf(c, m)), Style(InlineStyleId, InlineOverride(l, m))],
             pv.body["data-time-mode" := Name(m)],
             pv.root["data-hazeover-theme" := Name(m)]["data-edge-canary-theme" := Name(m)])
  }

  /** The main theme style stays unique while the inline overrides pile up:
      each application adds exactly one. */
  lemma AutoThemedStyles(pv: PageView, c: Catalogue, l: InlineLayout, m: Mode)
    requires CountId(pv.styles, ThemeStyleId) <= 1
    ensures var t := AutoThemed(pv, c, l, m);
            && CountId(t.styles, ThemeStyleId) == 1
            && CountId(t.styles, InlineStyleId) == CountId(pv.styles, InlineStyleId) + 1
            && t.styles[|t.styles| - 2] == Style(ThemeStyleId, CssOf(c, m))
            && t.body["data-time-mode"] == Name(m)
            && t.root["data-hazeover-theme"] == Name(m) && t.root["data-edge-canary-theme"] == Name(m)
  {
    var rest := WithoutFirst(pv.styles, ThemeStyleId);
    var added := [Style(ThemeStyleId, CssOf(c, m)), Style(InlineStyleId, InlineOverride(l, m))];
    assert ThemeStyleId[21] != InlineStyleId[21];
    WithoutFirstCounts(pv.styles, ThemeStyleId, InlineStyleId);
    CountIdAppend(rest, added, ThemeStyleId);
    CountIdAppend(rest, added, InlineStyleId);
    assert added == [added[0]] + [added[1]];
    CountIdAppend([added[0]], [added[1]], ThemeStyleId);
    CountIdAppend([added[0]], [added[1]], InlineStyleId);
  }

  /** Whether `localStorage` answers at all; its items. */
  function StoreApplied(available: bool, items: map<string, string>, m: Mode, now: int): map<string, string> {
    if available then items[ModeKey := Name(m)][LastUpdateKey := IntToString(now)] else items
  }

  /** `localStorage.getItem(ModeKey)`, with `null` for a missing item and
      for a store that throws. */
  function StoredMode(available: bool, items: map<string, string>): Option<string> {
    if available && ModeKey in items then Some(items[ModeKey]) else None
  }

  /** isManualOverrideActive: the flag is the string `true`, the expiry is
      a non-empty string, and `now` lies before the number `parseInt` reads
      from it (a string without digits gives `NaN`, and every comparison
      with `NaN` is false). */
  predicate OverrideActive(available: bool, items: map<string, string>, now: int) {
    && available
    && OverrideKey in items && items[OverrideKey] == "true"
    && UntilKey in items && items[UntilKey] != ""
    && ParseInt(items[UntilKey]).Some? && now < ParseInt(items[UntilKey]).value
  }

  /** The two override items as setThemeManually writes them at `now`. */
  function Overridden(available: bool, items: map<string, string>, now: int): map<string, string> {
    if available then items[OverrideKey := "true"][UntilKey := IntToString(now + OverrideMs)] else items
  }

  function WithoutOverride(available: bool, items: map<string, string>): map<string, string> {
    if available then items - {OverrideKey, UntilKey} else items
  }

  /** The expiry written as a decimal string reads back as the same number,
      so after a manual setting the override is active exactly for the
      following hour; a store that throws never reports one. */
  lemma OverrideWindow(available: bool, items: map<string, string>, now: int, later: int)
    ensures OverrideActive(available, Overridden(available, items, now), later) <==> available && later < now + OverrideMs
  {
    if available {
      var after := Overridden(available, items, now);
      var until := IntToString(now + OverrideMs);
      assert UntilKey != OverrideKey by {
        assert UntilKey[25] != OverrideKey[25];
      }
      assert after[OverrideKey] == "true" && after[UntilKey] == until && until != "";
      ParseIntOfIntToString(now + OverrideMs);
    }
  }

  /** Removing the two items ends the override and leaves the mode item. */
  lemma WithoutOverrideEnds(available: bool, items: map<string, string>, now: int)
    ensures !OverrideActive(available, WithoutOverride(available, items), now)
    ensures StoredMode(available, WithoutOverride(available, items)) == StoredMode(available, items)
  {
    if available {
      assert ModeKey != OverrideKey && ModeKey != UntilKey by {
        assert ModeKey[20] != OverrideKey[20];
        assert ModeKey[20] != UntilKey[20];
      }
    }
  }

  /** Whether the interval body applies the schedule's mode. */
  predicate TickApplies(available: bool, items: map<string, string>, clock: Instant) {
    !OverrideActive(available, items, clock.epochMs)
    && StoredMode(available, items) != Some(Name(CurrentTimeMode(clock.minute)))
  }

  /** Without a working `localStorage` no mode is ever read back, so every
      check applies the theme again. */
  lemma UnreadableStoreAlwaysApplies(items: map<string, string>, clock: Instant)
    ensures TickApplies(false, items, clock)
  {
  }

  /** With a working store and no override, a check right after an
      application of the schedule's mode does nothing. */
  lemma AppliedModeSettles(items: map<string, string>, m: Mode, now: int, clock: Instant)
    requires CurrentTimeMode(clock.minute) == m
    ensures !TickApplies(true, StoreApplied(true, items, m, now), clock)
  {
    assert ModeKey != LastUpdateKey by {
      assert ModeKey[20] != LastUpdateKey[20];
    }
  }

  // ---------------------------------------------------------------------
  // The script's state

  class EdgeAutoSwitcher {
    const page: Page
    const store: WebStorage
    const timers: Timers
    const catalogue: Catalogue
    const inline: InlineLayout
    /** `window.edgeCanaryThemeInterval`. */
    var savedInterval: Option<nat>

    constructor(page: Page, store: WebStorage, timers: Timers, catalogue: Catalogue)
      ensures this.page == page && this.store == store && this.timers == timers
      ensures this.catalogue == catalogue && inline == InlineText && savedInterval == None
    {
      this.page := page;
      this.store := store;
      this.timers := timers;
      this.catalogue := catalogue;
      inline := InlineText;
      savedInterval := None;
    }

    /** applyTheme(mode), called only with one of the three modes. */
    method ApplyTheme(m: Mode, now: int)
      modifies page, store
      ensures page.View() == AutoThemed(old(page.View()), catalogue, inline, m)
      ensures store.items == StoreApplied(store.available, old(store.items), m, now)
    {
      page.RemoveById(ThemeStyleId);
      page.AppendStyle(Style(ThemeStyleId, CssOf(catalogue, m)));
      page.SetBodyAttribute("data-time-mode", Name(m));
      page.SetRootAttribute("data-hazeover-theme", Name(m));
      page.SetRootAttribute("data-edge-canary-theme", Name(m));
      page.AppendStyle(Style(InlineStyleId, InlineOverride(inline, m)));
      var written := store.SetItem(ModeKey, Name(m));
      if written.Ok? {
        var _ := store.SetItem(LastUpdateKey, IntToString(now));
      }
    }

    method IsManualOverrideActive(now: int) returns (active: bool)
      ensures active == OverrideActive(store.available, store.items, now)
    {
      var flag := store.GetItem(OverrideKey);
      if flag.Err? {
        return false;
      }
      var until := store.GetItem(UntilKey);
      if until.Err? {
        return false;
      }
      active := false;
      if flag.value == Some("true") && until.value.Some? && until.value.value != "" {
        var n := ParseInt(until.value.value);
        active := n.Some? && now < n.value;
      }
    }

    /** The body of the interval initializeThemeSystem installs. */
    method Tick(clock: Instant)
      modifies page, store
      ensures var m := CurrentTimeMode(clock.minute);
              && page.View() == (if TickApplies(store.available, old(store.items), clock)
                                 then AutoThemed(old(page.View()), catalogue, inline, m) else old(page.View()))
              && store.items == (if TickApplies(store.available, old(store.items), clock)
                                 then StoreApplied(store.available, old(store.items), m, clock.epochMs) else old(store.items))
    {
      var active := IsManualOverrideActive(clock.epochMs);
      if active {
        return;
      }
      var newMode := CurrentTimeMode(clock.minute);
      var read := store.GetItem(ModeKey);
      var stored := if read.Ok? then read.value else None;
      if Some(Name(newMode)) != stored {
        ApplyTheme(newMode, clock.epochMs);
      }
    }

    /** initializeThemeSystem: apply the schedule's mode and start one more
        interval; the previous one is not cleared, only forgotten. */
    method InitializeThemeSystem(clock: Instant) returns (id: nat)
      requires timers.Valid()
      modifies this, page, store, timers
      ensures timers.Valid()
      ensures page.View() == AutoThemed(old(page.View()), catalogue, inline, CurrentTimeMode(clock.minute))
      ensures store.items == StoreApplied(store.available, old(store.items), CurrentTimeMode(clock.minute), clock.epochMs)
      ensures id !in old(timers.intervals) && timers.intervals == old(timers.intervals)[id := CheckMs]
      ensures timers.timeouts == old(timers.timeouts) && savedInterval == Some(id)
    {
      ApplyTheme(CurrentTimeMode(clock.minute), clock.epochMs);
      id := timers.SetInterval(CheckMs);
      savedInterval := Some(id);
    }

    /** setThemeManually(mode): only a mode of THEMES is applied, marked as
        an override for an hour, and given a timer that calls
        clearManualOverride's body after that hour. */
    method SetThemeManually(mode: string, clock: Instant) returns (timeout: Option<nat>)
      requires timers.Valid()
      modifies page, store, timers
      ensures timers.Valid() && timers.intervals == old(timers.intervals)
      ensures Parse(mode).None? ==>
                && timeout == None && page.View() == old(page.View()) && store.items == old(store.items)
                && timers.timeouts == old(timers.timeouts)
      ensures Parse(mode).Some? ==>
                && page.View() == AutoThemed(old(page.View()), catalogue, inline, Parse(mode).value)
                && store.items == Overridden(store.available,
                                             StoreApplied(store.available, old(store.items), Parse(mode).value, clock.epochMs),
                                             clock.epochMs)
                && timeout.Some? && timeout.value !in old(timers.timeouts)
                && timers.timeouts == old(timers.timeouts)[timeout.value := OverrideMs]
    {
      var m := Parse(mode);
      if m.None? {
        return None;
      }
      ApplyTheme(m.value, clock.epochMs);
      var flagged := store.SetItem(OverrideKey, "true");
      if flagged.Ok? {
        var _ := store.SetItem(UntilKey, IntToString(clock.epochMs + OverrideMs));
      }
      var id := timers.SetTimeout(OverrideMs);
      timeout := Some(id);
    }

    /** clearManualOverride, and the body of the one-hour timer: remove the
        two items, then initialise again. */
    method ClearManualOverride(clock: Instant) returns (id: nat)
      requires timers.Valid()
      modifies this, page, store, timers
      ensures timers.Valid() && savedInterval == Some(id)
      ensures !OverrideActive(store.available, store.items, clock.epochMs)
      ensures page.View() == AutoThemed(old(page.View()), catalogue, inline, CurrentTimeMode(clock.minute))
      ensures store.items == StoreApplied(store.available, WithoutOverride(store.available, old(store.items)),
                                          CurrentTimeMode(clock.minute), clock.epochMs)
      ensures id !in old(timers.intervals) && timers.intervals == old(timers.intervals)[id := CheckMs]
      ensures timers.timeouts == old(timers.timeouts)
    {
      var r1 := store.RemoveItem(OverrideKey);
      if r1.Ok? {
        var _ := store.RemoveItem(UntilKey);
      }
      assert store.items == WithoutOverride(store.available, old(store.items));
      id := InitializeThemeSystem(clock);
      ClearedStaysCleared(store.available, old(store.items), CurrentTimeMode(clock.minute), clock.epochMs);
    }

    /** The runtime message listener; an unknown action gets no answer. */
    method HandleMessage(msg: S.Message, clock: Instant) returns (resp: Option<S.Response>)
      requires timers.Valid()
      modifies this, page, store, timers
      ensures timers.Valid()
      ensures resp == (match msg.action
                       case "updateTheme" => Some(S.Done(Some(msg.mode)))
                       case "getCurrentMode" => Some(S.ModeReply(Name(CurrentTimeMode(clock.minute))))
                       case "clearOverride" => Some(S.Done(None))
                       case _ => None)
      ensures msg.action !in {"updateTheme", "clearOverride"} ==>
                page.View() == old(page.View()) && store.items == old(store.items)
                && timers.intervals == old(timers.intervals) && timers.timeouts == old(timers.timeouts)
                && savedInterval == old(savedInterval)
      ensures msg.action == "updateTheme" ==>
                && savedInterval == old(savedInterval) && timers.intervals == old(timers.intervals)
                && (Parse(msg.mode).None? ==>
                      page.View() == old(page.View()) && store.items == old(store.items)
                      && timers.timeouts == old(timers.timeouts))
                && (Parse(msg.mode).Some? ==>
                      && page.View() == AutoThemed(old(page.View()), catalogue, inline, Parse(msg.mode).value)
                      && store.items == Overridden(store.available,
                                                   StoreApplied(store.available, old(store.items),
                                                                Parse(msg.mode).value, clock.epochMs),
                                                   clock.epochMs)
                      && exists id: nat :: id !in old(timers.timeouts) && timers.timeouts == old(timers.timeouts)[id := OverrideMs])
      ensures msg.action == "clearOverride" ==>
                && !OverrideActive(store.available, store.items, clock.epochMs)
                && page.View() == AutoThemed(old(page.View()), catalogue, inline, CurrentTimeMode(clock.minute))
                && store.items == StoreApplied(store.available, WithoutOverride(store.available, old(store.items)),
                                               CurrentTimeMode(clock.minute), clock.epochMs)
                && savedInterval.Some? && savedInterval.value !in old(timers.intervals)
                && timers.intervals == old(timers.intervals)[savedInterval.value := CheckMs]
                && timers.timeouts == old(timers.timeouts)
    {
      if msg.action == "updateTheme" {
        var timeout := SetThemeManually(msg.mode, clock);
        resp := Some(S.Done(Some(msg.mode)));
      } else if msg.action == "getCurrentMode" {
        resp := Some(S.ModeReply(Name(CurrentTimeMode(clock.minute))));
      } else if msg.action == "clearOverride" {
        var _ := ClearManualOverride(clock);
        resp := Some(S.Done(None));
      } else {
        resp := None;
      }
    }

    /** The `beforeunload` listener: only the last saved interval stops. */
    method Unload()
      requires timers.Valid()
      modifies timers
      ensures timers.Valid() && timers.timeouts == old(timers.timeouts)
      ensures timers.intervals == (if savedInterval.Some? then old(timers.intervals) - {savedInterval.value}
                                   else old(timers.intervals))
    {
      if savedInterval.Some? {
        timers.ClearInterval(savedInterval.value);
      }
    }
  }

  /** Storing the mode after removing the override items does not bring the
      override back. */
  lemma ClearedStaysCleared(available: bool, items: map<string, string>, m: Mode, now: int)
    ensures !OverrideActive(available, StoreApplied(available, WithoutOverride(available, items), m, now), now)
  {
    if available {
      assert OverrideKey != ModeKey && OverrideKey != LastUpdateKey by {
        assert OverrideKey[20] != ModeKey[20];
        assert OverrideKey[20] != LastUpdateKey[20];
      }
    }
  }
}
