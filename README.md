# HazeOver time-of-day theme controller, in Dafny

This project models the core of the HazeOver browser-theme tools. A
controller reads the local clock and picks one of three modes: `day` on
[7:00, 17:30), `evening` on [17:30, 19:00), and `night` otherwise. It
then paints the page with that mode's colours. It records the mode in
storage and checks the clock once a minute. A manual choice pins a mode
for a limited time (an override), after which the schedule takes over
again.

The repository writes this controller several times, and each variant
is its own module here:

- `ThemeScheduler` models the shared schedule (`shared/core/ThemeScheduler.js`):
  - the classifier;
  - the next transition with its wait and clock text;
  - the validity checks on mode names.
- `BaseThemes` models the shared themes module (`shared/themes/BaseThemes.js`):
  - the colour table;
  - the CSS template and its chained global placeholder replacement;
  - the browser theme record.
- `StorageManager` models `shared/utils/StorageManager.js`. It is the
  prefixed key/value store over four backends (chosen once at
  construction), holding the mode, its time stamp and the override flag
  and expiry.
- `ThemeManager` models the generic manager (`shared/core/ThemeManager.js`):
  - applying a theme to the page;
  - the one-minute check and the interval bookkeeping;
  - the manual override and the status report.
- `SharedSwitcher` models the two field-based managers:
  - `SimpleThemeManager` in `src/Edge_Canary_Shared_Theme_Switcher.js`;
  - `OperaThemeManager` in `extensions/opera/src/Opera_Shared_Theme_Switcher.js`.

  They are one class, parameterised by a `Variant`, because the two
  files differ only in their constants. Those constants are the style
  id, the `data-browser` tag and the fixed text of the generated CSS.
  The module also models their message listeners.
- `EdgeAutoSwitcher` models the Edge Canary content script that keeps
  everything as strings in `localStorage`
  (`extensions/edge-canary/dist/src/Edge_Canary_Auto_Theme_Switcher.js`).
- `EdgeBackground` models the Edge Canary background worker
  (`extensions/edge-canary/dist/src/background.js`).

Supporting modules:

- `Modes` defines the modes and their names.
- `Strings` holds the JavaScript string and number behaviour the
  controllers rely on: global `replace`, `String(n)`, `parseInt`,
  `Number`, `padStart`.
- `Host` holds the browser objects the controllers change in place: the
  page's style elements and attributes, the timer registry and
  `localStorage`.

Time is exact. The source reads the clock as the number of hours
`hours + minutes / 60`. Here that reading is a minute of the day
(0..1439), so 17.5 h is minute 1050. `Date.now()` is a separate integer
of milliseconds. One `Host.Instant` carries both readings.

Objects that the source updates in place are classes:

- the manager objects, whose fields their methods assign;
- the page, the timers and `localStorage`.

Their methods are proved against value-level functions: for example,
`ThemeManager.Themed`, `SharedSwitcher.Ticked` and
`EdgeBackground.Checked`. The lemmas prove the promised properties about
those functions.

The model follows the code as written. Several of its behaviours are
not what its names, comments or parameters suggest, and each one is a
proved property:

- The generic manager's manual override always lasts one hour. The
  duration passed to `setThemeManually` only sets the clearing timer
  (`ThemeManager.StoreAppliedContents`).
- The Edge auto switcher appends one more inline override style on every
  application (`EdgeAutoSwitcher.AutoThemedStyles`).
- Each initialisation of the Edge auto switcher starts one more interval
  without clearing the previous one
  (`EdgeAutoSwitcher.EdgeAutoSwitcher.InitializeThemeSystem`).
- The field-based managers start an override even for an unknown mode
  name (`SharedSwitcher.ManualOverrideWindow`).
- The storage manager's override needs a truthy end time. A computed end
  time of 0 never starts one (`StorageManager.OverrideWindow`).
- The background worker's `setMode` is undone by the check that follows
  it (`EdgeBackground.SetModeIsOverruled`).
- Without storage the background worker never settles
  (`EdgeBackground.NoStoreNeverSettles`).

## Model

| member | source | states |
|---|---|---|
| Modes.Parse | shared/core/ThemeScheduler.js:77-79 | a parsed name is the name of the mode it returns |
| Modes.ParseName | shared/core/ThemeScheduler.js:77-79 | every mode's own name parses back to that mode |
| Modes.ModeNamesAreTheModes | shared/core/ThemeScheduler.js:77-79 | the list `day, evening, night` holds exactly the names that parse |
| ThemeScheduler.ClassifierPartition | shared/core/ThemeScheduler.js:18-29 | day exactly on [420, 1050), evening on [1050, 1140), night on the rest of the day |
| ThemeScheduler.ClassifierBoundaries | shared/core/ThemeScheduler.js:8-12 | 7:00 is day and 6:59 night; 17:30 is evening and 17:29 day; 19:00 is night and 18:59 evening; 0:00 and 23:59 are night |
| ThemeScheduler.ClassifierAnswersValidName | shared/core/ThemeScheduler.js:22-28 | the classifier always answers a name that isValidThemeMode accepts |
| ThemeScheduler.GetTimeRangeForMode | shared/core/ThemeScheduler.js:86-92 | succeeds exactly for a valid name, with that mode's schedule entry; fails with `Invalid theme mode: <name>` otherwise |
| ThemeScheduler.IsTimeInModeRange | shared/core/ThemeScheduler.js:99-109 | fails exactly for an invalid name |
| ThemeScheduler.ExactlyOneModeInRange | shared/core/ThemeScheduler.js:99-109 | a reading lies in a mode's range (night wrapping midnight) exactly when the classifier returns that mode |
| ThemeScheduler.NextTransitionBounds | shared/core/ThemeScheduler.js:36-69 | a transition is reported exactly for a missing, empty or valid name; its next mode is the fixed successor; the wait is whole minutes in (0, 24 h] |
| ThemeScheduler.WaitBounds | shared/core/ThemeScheduler.js:62-67 | the wait, pushed a day on when not positive, lies in (0, 24 h] |
| ThemeScheduler.NextTransitionIsFirstChange | shared/core/ThemeScheduler.js:36-69 | for the schedule's own mode the wait ends at the first minute whose mode differs, and that mode is the one reported next |
| ThemeScheduler.LateNightIsFirstChange | shared/core/ThemeScheduler.js:52-58 | after 19:00 the wait runs past midnight to 7:00, the first change |
| ThemeScheduler.SameDayIsFirstChange | shared/core/ThemeScheduler.js:43-51 | before 19:00 the next mode starts the same day, at the first change |
| ThemeScheduler.NightAtEightPm | shared/core/ThemeScheduler.js:52-67 | night at 20:00 reports day next, at 7:00, in 11 hours, printed `7:00` |
| ThemeScheduler.ReportedNextTimes | shared/core/ThemeScheduler.js:66-68 | the reported time is reduced to the day and is the next mode's start; the text is `17:30`, `19:00` or `7:00` |
| ThemeScheduler.TargetReduces | shared/core/ThemeScheduler.js:55-58 | the target hour, reduced mod 24 h, is the next mode's start (31 h becomes 7 h) |
| ThemeScheduler.EveningStartText | shared/core/ThemeScheduler.js:68 | 17:30 prints as `17:30` |
| ThemeScheduler.NightStartText | shared/core/ThemeScheduler.js:68 | 19:00 prints as `19:00` |
| ThemeScheduler.DayStartText | shared/core/ThemeScheduler.js:68 | 7:00 prints as `7:00`, the hour not zero-padded |
| BaseThemes.GetAvailableModes | shared/themes/BaseThemes.js:188-190 | three distinct names, exactly the valid ones, in the order day, evening, night |
| BaseThemes.GetThemeColors | shared/themes/BaseThemes.js:180-182 | the table entry exactly for a valid mode, `null` otherwise |
| BaseThemes.AvailableModesAreValid | shared/themes/BaseThemes.js:188-199 | the listed modes, the valid modes and the modes with colours coincide |
| BaseThemes.SchemesDiffer | shared/themes/BaseThemes.js:10-46 | two modes' schemes, and even their backgrounds, are equal only for the same mode |
| BaseThemes.GenerateThemeCss | shared/themes/BaseThemes.js:147-151 | throws `Invalid theme mode: <mode>` exactly for an invalid mode, before any output |
| BaseThemes.Fill | shared/themes/BaseThemes.js:154-161 | filling one slot keeps the template's length |
| BaseThemes.ReplaceFillsSlot | shared/themes/BaseThemes.js:154-161 | one global replacement of a slot's placeholder in a safe template fills exactly that slot |
| BaseThemes.OtherPlaceholderDoesNotMatch | shared/themes/BaseThemes.js:154-161 | a placeholder never begins inside another slot's placeholder |
| BaseThemes.BracedNamePassesThrough | shared/themes/BaseThemes.js:154-161 | replacing one placeholder leaves a different braced name intact |
| BaseThemes.FillKeepsSafe | shared/themes/BaseThemes.js:154-161 | filling a slot with a colour free of `{` keeps the template safe |
| BaseThemes.FillRemovesHoles | shared/themes/BaseThemes.js:154-161 | after filling a slot, its holes are gone and the others remain |
| BaseThemes.FillOwnValue | shared/themes/BaseThemes.js:154-161 | filling a slot with the scheme's own colour does not change the intended text |
| BaseThemes.RenderWithoutHoles | shared/themes/BaseThemes.js:154-161 | a template without holes reads the same with or without a scheme |
| BaseThemes.RenderSafe | shared/themes/BaseThemes.js:154-161 | safe literals without holes render to text where no `{{` begins |
| BaseThemes.SubstituteFills | shared/themes/BaseThemes.js:154-161 | the chained replacements fill the listed slots and no others |
| BaseThemes.SubstituteAllSlots | shared/themes/BaseThemes.js:154-161 | replacing every slot yields the intended text, with no placeholder left |
| BaseThemes.BaseCssTemplateSafe | shared/themes/BaseThemes.js:52-63 | the source's root block is safe for chained replacement |
| BaseThemes.SchemesBraceFree | shared/themes/BaseThemes.js:10-46 | no colour of the table holds a `{` |
| BaseThemes.SlotOrderComplete | shared/themes/BaseThemes.js:154-161 | the seven replacements cover every slot |
| BaseThemes.SubstituteRootFills | shared/themes/BaseThemes.js:154-161 | the substituted root block is the template with each slot set to the scheme's colour |
| BaseThemes.NoPlaceholderLeft | shared/themes/BaseThemes.js:154-161 | none of the seven `{{…}}` placeholders is left in the root block |
| BaseThemes.GeneratedCss | shared/themes/BaseThemes.js:147-173 | for a valid mode the output is the filled root, then base, then focus, then the custom css |
| BaseThemes.SelectorsIgnored | shared/themes/BaseThemes.js:147 | the custom selectors do not change the css |
| BaseThemes.MergeSelectors | shared/themes/BaseThemes.js:222 | the merge has every key of both maps, and the browser's list wins where both have one |
| BaseThemes.CreateBrowserTheme | shared/themes/BaseThemes.js:209-213 | throws `Invalid theme mode: <mode>` exactly for an invalid mode |
| BaseThemes.BrowserThemeContents | shared/themes/BaseThemes.js:209-225 | the record holds the mode, the browser, the mode's scheme, the generated css, the merged selectors and the time stamp |
| Strings.ReplaceAllWithoutMatch | shared/themes/BaseThemes.js:155-161 | a global replace of a pattern that never occurs changes nothing |
| Strings.ReplaceAllMatch | shared/themes/BaseThemes.js:155-161 | at an occurrence the replacement is written and the scan resumes after it |
| Strings.ReplaceAllSkips | shared/themes/BaseThemes.js:155-161 | text where the pattern does not begin is copied |
| Strings.NoDoubleBraceExcludes | shared/themes/BaseThemes.js:155-161 | text without `{{` contains no placeholder |
| Strings.NatToString | extensions/edge-canary/dist/src/Edge_Canary_Auto_Theme_Switcher.js:393 | decimal digits only, without leading zeros: the text starts with `0` exactly when n is 0 |
| Strings.DigitsValueOfNatToString | extensions/edge-canary/dist/src/Edge_Canary_Auto_Theme_Switcher.js:393 | the digits written for n have the value n |
| Strings.IntToString | extensions/edge-canary/dist/src/Edge_Canary_Auto_Theme_Switcher.js:330 | `toString` of an integer is never empty |
| Strings.Pad2 | shared/core/ThemeScheduler.js:68 | `padStart(2, '0')` of a number below 100 is two characters |
| Strings.ParseInt | extensions/edge-canary/dist/src/Edge_Canary_Auto_Theme_Switcher.js:423 | `parseInt` with no radix: after the white space and the sign it is `NaN` exactly when no digit follows (a hexadecimal digit after `0x`/`0X`, a decimal one otherwise), and a negative result needs a leading `-` |
| Strings.ParseIntReadsHex | extensions/edge-canary/dist/src/Edge_Canary_Auto_Theme_Switcher.js:423 | after `0x` or `0X` the digits are read in base 16 |
| Strings.ParseIntHexWithoutDigits | extensions/edge-canary/dist/src/Edge_Canary_Auto_Theme_Switcher.js:423 | a `0x` prefix with no hexadecimal digit after it is `NaN` |
| Strings.ParseIntSkipsSpace | extensions/edge-canary/dist/src/Edge_Canary_Auto_Theme_Switcher.js:423 | any leading StrWhiteSpaceChar, the Unicode space separators included, is skipped |
| Strings.ParseIntOfIntToString | extensions/edge-canary/dist/src/Edge_Canary_Auto_Theme_Switcher.js:393-423 | `parseInt` reads back exactly the integer that `toString` wrote |
| Strings.DecimalNumber | shared/utils/StorageManager.js:218 | `Number` of a blank text is 0 |
| StorageManager.InitialBackend | shared/utils/StorageManager.js:20-39 | an explicit type is kept with no backend attached; `auto` falls back to the map only when no host storage exists |
| StorageManager.AutoDetectionOrder | shared/utils/StorageManager.js:20-39 | `auto` prefers chrome.storage, then browser.storage, then localStorage, and always attaches a backend |
| StorageManager.ReadAfterWrite | shared/utils/StorageManager.js:47-110 | a written value reads back, except that the map backend's `||` turns a falsy value into the default; a `setItem` that throws answers `false` and the old value stays |
| StorageManager.WriteIsLocal | shared/utils/StorageManager.js:82-110 | a write touches only its own prefixed key |
| StorageManager.ReadAfterDelete | shared/utils/StorageManager.js:117-145 | after a removal the default is read, and other keys keep their values |
| StorageManager.DetachedChangesNothing | shared/utils/StorageManager.js:20-39 | a manager with no backend attached never changes the entries, and answers `false` or rejects |
| StorageManager.ClearRemovesOwnKeys | shared/utils/StorageManager.js:151-186 | clear deletes exactly the prefixed keys, keeps the others, and every own key then reads as its default |
| StorageManager.WriteModeStoresBoth | shared/utils/StorageManager.js:201-207 | setCurrentMode answers whether the mode was stored; the time stamp is attempted only after that, so a refused mode write changes nothing |
| StorageManager.OverrideNeedsTrueFlag | shared/utils/StorageManager.js:213-221 | an active override needs a stored `true` flag and a truthy end time |
| StorageManager.FailedModeWriteKeepsTimeStamp | shared/utils/StorageManager.js:201-207 | when the mode write fails the time stamp keeps its old value, even where storing it alone would succeed |
| StorageManager.OverrideWindow | shared/utils/StorageManager.js:229-236 | after setManualOverride(m, d) at `now` the override is active exactly before now + d (never when that is 0), and the mode reads back, each for the writes the store accepts; the answer is `false` exactly when one of the three writes is refused |
| StorageManager.DeleteOverrideDeactivates | shared/utils/StorageManager.js:242-247 | clearManualOverride ends the override and leaves the stored mode |
| StorageManager.StorageManager.constructor | shared/utils/StorageManager.js:11-15 | the backend is the one initializeStorage picks |
| StorageManager.StorageManager.Get | shared/utils/StorageManager.js:47-74 | reads the prefixed key as `Read` does |
| StorageManager.StorageManager.Set | shared/utils/StorageManager.js:82-110 | the new entries and the answer are those of `Write`, including a caught `setItem` throw that answers `false` |
| StorageManager.StorageManager.Remove | shared/utils/StorageManager.js:117-145 | the new entries and the answer are those of `Delete` |
| StorageManager.StorageManager.Clear | shared/utils/StorageManager.js:151-186 | the deletion loop leaves exactly the unprefixed entries |
| StorageManager.StorageManager.GetCurrentMode | shared/utils/StorageManager.js:192-194 | reads the `mode` key with the default `null` |
| StorageManager.StorageManager.SetCurrentMode | shared/utils/StorageManager.js:201-207 | writes the mode, and the time stamp only after a successful first write |
| StorageManager.StorageManager.IsManualOverrideActive | shared/utils/StorageManager.js:213-221 | answers `OverrideActive`: a `true` flag, a truthy end time, and now before it |
| StorageManager.StorageManager.SetManualOverride | shared/utils/StorageManager.js:229-236 | writes the flag, the end time and the mode; the answer is the conjunction of the three |
| StorageManager.StorageManager.ClearManualOverride | shared/utils/StorageManager.js:242-247 | removes both override keys |
| Host.WithoutThemeStyles | shared/core/ThemeManager.js:204-207 | the styles the selector keeps are never more than before |
| Host.WithoutThemeStylesKeeps | shared/core/ThemeManager.js:204-207 | the filter keeps exactly the styles the selector does not match |
| Host.WithoutThemeStylesCount | shared/core/ThemeManager.js:204-207 | no matched style is left |
| Host.WithoutThemeStylesIdempotent | shared/core/ThemeManager.js:204-207 | removing the theme styles twice is removing them once |
| Host.WithoutFirstCounts | src/Edge_Canary_Shared_Theme_Switcher.js:183-186 | removal by id takes away one element with that id, and other ids keep their counts |
| Host.WithoutFirstKeeps | src/Edge_Canary_Shared_Theme_Switcher.js:183-186 | removal by id adds nothing and keeps the styles with other ids |
| Host.ReplaceKeepsUnique | src/Edge_Canary_Shared_Theme_Switcher.js:183-226 | remove by id then append keeps that id unique |
| Host.Page.RemoveById | src/Edge_Canary_Shared_Theme_Switcher.js:183-186 | `getElementById(id).remove()` drops the first element with the id |
| Host.Page.RemoveThemeStyles | shared/core/ThemeManager.js:204-207 | the selector's matches are removed and the rest keep their order |
| Host.Page.AppendStyle | shared/core/ThemeManager.js:220-225 | the new style goes last |
| Host.Timers.SetInterval | shared/core/ThemeManager.js:105 | a fresh, truthy id is registered with its period |
| Host.Timers.SetTimeout | shared/core/ThemeManager.js:152-155 | a fresh, truthy id is registered with its delay |
| Host.Timers.ClearInterval | shared/core/ThemeManager.js:131-137 | the id's interval is gone and nothing else changes |
| Host.WebStorage.GetItem | extensions/edge-canary/dist/src/Edge_Canary_Auto_Theme_Switcher.js:417-429 | the item, `null` when missing, or the thrown error when there is no store |
| Host.WebStorage.SetItem | extensions/edge-canary/dist/src/Edge_Canary_Auto_Theme_Switcher.js:328-333 | sets the item, or throws and changes nothing |
| Host.WebStorage.RemoveItem | extensions/edge-canary/dist/src/Edge_Canary_Auto_Theme_Switcher.js:434-438 | removes the item, or throws and changes nothing |
| ThemeManager.StyleIdIsThemeStyle | shared/core/ThemeManager.js:220-225 | the manager's own style is one the theme selector matches |
| ThemeManager.ThemedStyles | shared/core/ThemeManager.js:204-225 | after an application exactly one theme style is left, the manager's own one with the css, last; every other style stays |
| ThemeManager.ThemedAttributes | shared/core/ThemeManager.js:232-237 | the three mode attributes hold the mode, `data-browser` the browser name, and other attributes are unchanged |
| ThemeManager.ThemedIdempotent | shared/core/ThemeManager.js:204-237 | applying the same theme twice leaves the page as applying it once |
| ThemeManager.ThemedStylesTwice | shared/core/ThemeManager.js:204-225 | a second clear-and-append removes just the style the first one added |
| ThemeManager.ThemedBodyTwice | shared/core/ThemeManager.js:232-233 | setting the body attribute again changes nothing |
| ThemeManager.ThemedRootTwice | shared/core/ThemeManager.js:234-236 | setting the root attributes again changes nothing |
| ThemeManager.RootKeysDiffer | shared/core/ThemeManager.js:234-236 | the three root attributes have different names |
| ThemeManager.StoreAppliedContents | shared/core/ThemeManager.js:76-80 | on an attached backend applyTheme succeeds and the mode is stored, or keeps its old value when refused; a manual application starts an override of exactly one hour whatever duration was asked |
| ThemeManager.TickSettles | shared/core/ThemeManager.js:105-123 | after a check applied the schedule's mode the next check changes nothing while the mode holds, unless the store refuses the mode, in which case the store is left as it was and the check applies again; no check applies while an override runs |
| ThemeManager.ThemeManager.constructor | shared/core/ThemeManager.js:12-21 | fields set, no interval, not initialised |
| ThemeManager.ThemeManager.RemoveExistingTheme | shared/core/ThemeManager.js:204-213 | the theme styles and the three mode attributes are gone |
| ThemeManager.ThemeManager.InjectThemeCss | shared/core/ThemeManager.js:220-225 | the style `hazeover-<browser>-theme-style` with the css is appended |
| ThemeManager.ThemeManager.SetDocumentAttributes | shared/core/ThemeManager.js:232-237 | sets `data-time-mode`, `data-hazeover-theme`, `data-theme-mode` and `data-browser` |
| ThemeManager.ThemeManager.ApplyTheme | shared/core/ThemeManager.js:57-94 | an invalid mode throws with nothing changed; a valid one paints the page (`Themed`) and stores as `StoreApplied` says, a rejected write answering `false` |
| ThemeManager.ThemeManager.Tick | shared/core/ThemeManager.js:105-123 | applies the schedule's mode exactly when no override runs and the stored mode differs; otherwise changes nothing |
| ThemeManager.ThemeManager.StopAutoMode | shared/core/ThemeManager.js:131-137 | the running interval is cleared and `intervalId` is null |
| ThemeManager.ThemeManager.StartAutoMode | shared/core/ThemeManager.js:101-126 | the old interval is cleared before the new one starts, so the manager owns one interval |
| ThemeManager.ThemeManager.Initialize | shared/core/ThemeManager.js:28-49 | applies the schedule's mode and marks the manager initialised; when asked to start auto mode, the running interval is cleared and one new one-minute interval takes its place; timeouts are untouched |
| ThemeManager.ThemeManager.SetThemeManually | shared/core/ThemeManager.js:145-157 | a manual application, plus a timeout of the requested duration after a success; an invalid mode changes nothing |
| ThemeManager.ThemeManager.ClearManualOverride | shared/core/ThemeManager.js:163-177 | the stored override goes, then the schedule's mode is applied; a rejected call answers `false` with nothing changed |
| ThemeManager.ThemeManager.GetStatus | shared/core/ThemeManager.js:183-198 | the schedule's mode, the stored mode, the override state, the next transition, `isAutoModeActive` as `intervalId !== null`; rejects when storage does |
| ThemeManager.ThemeManager.Destroy | shared/core/ThemeManager.js:261-266 | stops the interval, clears the page and resets `isInitialized`; timeouts are untouched, so a pending override-clearing timeout is still armed |
| SharedSwitcher.PaletteMatchesSharedScheme | src/Edge_Canary_Shared_Theme_Switcher.js:137-159 | the five-colour table is the first five colours of the shared schemes |
| SharedSwitcher.SwitcherCssDeclares | src/Edge_Canary_Shared_Theme_Switcher.js:188-211 | the css opens with the five `--theme-*` declarations, then the config css; the body and focus rules use the background, text and accent colours |
| SharedSwitcher.TickRules | src/Edge_Canary_Shared_Theme_Switcher.js:240-258 | a check is a no-op while the override runs; otherwise it ends an expired override and leaves the schedule's mode current, and a second check changes nothing |
| SharedSwitcher.ManualOverrideWindow | src/Edge_Canary_Shared_Theme_Switcher.js:263-269 | a manual setting always starts an override of exactly the duration, even for an unknown mode |
| SharedSwitcher.ReleasedControl | src/Edge_Canary_Shared_Theme_Switcher.js:271-278 | clearing ends the override and leaves the schedule's mode current |
| SharedSwitcher.ManualNightAtEight | src/Edge_Canary_Shared_Theme_Switcher.js:280-289 | at 08:00 a one-minute manual night reports (day, night, overridden); the first check after the minute returns to day and ends the override |
| SharedSwitcher.PageAppliedContents | src/Edge_Canary_Shared_Theme_Switcher.js:179-226 | after an application the switcher's style is unique and last, with the palette's css; the attributes name the mode and the browser tag |
| SharedSwitcher.SwitcherThemedContents | extensions/opera/src/Opera_Shared_Theme_Switcher.js:199-242 | remove-then-append keeps the style unique and last, and the attributes are set |
| SharedSwitcher.PageAppliedKnown | extensions/opera/src/Opera_Shared_Theme_Switcher.js:194-198 | a mode's own name finds its palette |
| SharedSwitcher.DestroyRemovesStyle | src/Edge_Canary_Shared_Theme_Switcher.js:291-301 | destroy removes a unique style |
| SharedSwitcher.MessageEffects | extensions/opera/src/Opera_Shared_Theme_Switcher.js:393-429 | `updateTheme` answers success and starts a five-minute override; an unknown action answers `Unknown action` and changes nothing |
| SharedSwitcher.SharedThemeManager.constructor | src/Edge_Canary_Shared_Theme_Switcher.js:163-168 | no mode, no override, no interval |
| SharedSwitcher.SharedThemeManager.ApplyTheme | src/Edge_Canary_Shared_Theme_Switcher.js:179-235 | answers `true` exactly for a mode of the table; then the page, the fields and the store are as applied, and an unknown mode changes nothing |
| SharedSwitcher.SharedThemeManager.Tick | extensions/opera/src/Opera_Shared_Theme_Switcher.js:256-274 | the fields become `Ticked`; the page and the store change exactly when the check applies |
| SharedSwitcher.SharedThemeManager.StartAutoMode | src/Edge_Canary_Shared_Theme_Switcher.js:237-261 | the previous interval is cleared and one new one-minute interval is installed |
| SharedSwitcher.SharedThemeManager.Initialize | src/Edge_Canary_Shared_Theme_Switcher.js:170-177 | applies the schedule's mode; the running interval is cleared and one new one-minute interval takes its place; timeouts are untouched |
| SharedSwitcher.SharedThemeManager.SetThemeManually | extensions/opera/src/Opera_Shared_Theme_Switcher.js:279-285 | always answers `true` and sets the override fields whatever the mode |
| SharedSwitcher.SharedThemeManager.ClearManualOverride | extensions/opera/src/Opera_Shared_Theme_Switcher.js:287-294 | resets both fields, then applies the schedule's mode |
| SharedSwitcher.SharedThemeManager.GetStatus | extensions/opera/src/Opera_Shared_Theme_Switcher.js:296-305 | reports `flag && now < until` and `intervalId !== null`, with `currentMode` as the stored mode |
| SharedSwitcher.SharedThemeManager.Destroy | extensions/opera/src/Opera_Shared_Theme_Switcher.js:307-317 | the interval is cleared and forgotten, and the style removed; timeouts, the override fields and the loaded flag are untouched |
| SharedSwitcher.SharedThemeManager.HandleMessage | src/Edge_Canary_Shared_Theme_Switcher.js:414-448 | answers and new fields as `Reply` and `ControlAfter` give them; `updateTheme` applies its mode and `clearOverride` the schedule's to page and store, and every other action leaves both unchanged |
| EdgeAutoSwitcher.AutoThemedStyles | extensions/edge-canary/dist/src/Edge_Canary_Auto_Theme_Switcher.js:293-325 | the main style stays unique while each application adds exactly one inline override; the three attributes hold the mode |
| EdgeAutoSwitcher.OverrideWindow | extensions/edge-canary/dist/src/Edge_Canary_Auto_Theme_Switcher.js:386-429 | after a manual setting the override is active exactly for the following hour, and never without a store |
| EdgeAutoSwitcher.WithoutOverrideEnds | extensions/edge-canary/dist/src/Edge_Canary_Auto_Theme_Switcher.js:434-438 | removing the two items ends the override and keeps the mode item |
| EdgeAutoSwitcher.UnreadableStoreAlwaysApplies | extensions/edge-canary/dist/src/Edge_Canary_Auto_Theme_Switcher.js:356-375 | without a working store every check applies the theme again |
| EdgeAutoSwitcher.AppliedModeSettles | extensions/edge-canary/dist/src/Edge_Canary_Auto_Theme_Switcher.js:356-375 | with a working store, a check right after applying the schedule's mode does nothing |
| EdgeAutoSwitcher.ClearedStaysCleared | extensions/edge-canary/dist/src/Edge_Canary_Auto_Theme_Switcher.js:434-443 | storing the mode after removing the override does not bring it back |
| EdgeAutoSwitcher.EdgeAutoSwitcher.constructor | extensions/edge-canary/dist/src/Edge_Canary_Auto_Theme_Switcher.js:15-270 | the catalogue of theme css, the inline text, and no saved interval |
| EdgeAutoSwitcher.EdgeAutoSwitcher.ApplyTheme | extensions/edge-canary/dist/src/Edge_Canary_Auto_Theme_Switcher.js:291-345 | the page is `AutoThemed` and the store holds the mode and, after a successful write, the time |
| EdgeAutoSwitcher.EdgeAutoSwitcher.IsManualOverrideActive | extensions/edge-canary/dist/src/Edge_Canary_Auto_Theme_Switcher.js:417-429 | a `true` flag, a non-empty expiry, and now before its `parseInt` |
| EdgeAutoSwitcher.EdgeAutoSwitcher.Tick | extensions/edge-canary/dist/src/Edge_Canary_Auto_Theme_Switcher.js:356-375 | applies the schedule's mode exactly when no override runs and the stored string differs |
| EdgeAutoSwitcher.EdgeAutoSwitcher.InitializeThemeSystem | extensions/edge-canary/dist/src/Edge_Canary_Auto_Theme_Switcher.js:350-381 | applies the schedule's mode and adds a new interval, keeping the old ones |
| EdgeAutoSwitcher.EdgeAutoSwitcher.SetThemeManually | extensions/edge-canary/dist/src/Edge_Canary_Auto_Theme_Switcher.js:386-412 | a no-op for a name outside THEMES; otherwise applies, stores `true` and now + 1 h, and schedules a one-hour timeout |
| EdgeAutoSwitcher.EdgeAutoSwitcher.ClearManualOverride | extensions/edge-canary/dist/src/Edge_Canary_Auto_Theme_Switcher.js:434-443 | removes both items and re-initialises; no override is left |
| EdgeAutoSwitcher.EdgeAutoSwitcher.HandleMessage | extensions/edge-canary/dist/src/Edge_Canary_Auto_Theme_Switcher.js:455-470 | the three actions answer as the listener does. `updateTheme` has the page, store and timers of `setThemeManually`: a single new one-hour timeout for a mode in THEMES, and no change for any other name. `clearOverride` has those of `clearManualOverride`. Other actions get no answer and change nothing |
| EdgeAutoSwitcher.EdgeAutoSwitcher.Unload | extensions/edge-canary/dist/src/Edge_Canary_Auto_Theme_Switcher.js:493-497 | only the last saved interval stops |
| EdgeBackground.UpdateMessages | extensions/edge-canary/dist/src/background.js:47-58 | one `updateTheme` message per tab, in order |
| EdgeBackground.StoredModeOf | extensions/edge-canary/dist/src/background.js:85-95 | the stored value when truthy, otherwise `day`; always truthy |
| EdgeBackground.CheckSettles | extensions/edge-canary/dist/src/background.js:38-64 | one check brings the stored mode to the schedule's, so a second check does nothing |
| EdgeBackground.EmptyStoreAtDay | extensions/edge-canary/dist/src/background.js:43-45 | an empty store needs a write exactly outside the day |
| EdgeBackground.NoStoreNeverSettles | extensions/edge-canary/dist/src/background.js:85-105 | without storage nothing is stored, and every evening or night check messages the tabs again |
| EdgeBackground.SetModeIsOverruled | extensions/edge-canary/dist/src/background.js:110-119 | after `setMode` and the check that follows it, the stored mode is the schedule's |
| EdgeBackground.Background.GetStoredMode | extensions/edge-canary/dist/src/background.js:85-95 | answers `StoredModeOf` |
| EdgeBackground.Background.SetStoredMode | extensions/edge-canary/dist/src/background.js:97-105 | writes the mode item when storage exists |
| EdgeBackground.Background.CheckAndUpdateTheme | extensions/edge-canary/dist/src/background.js:38-64 | writes the schedule's mode and messages every tab the query lists at that check, in order, exactly when the stored mode differs |
| EdgeBackground.Background.StartThemeChecking | extensions/edge-canary/dist/src/background.js:27-33 | one check now, whose store and messages to the queried tabs are those of `checkAndUpdateTheme`, and an interval every minute |
| EdgeBackground.Background.HandleMessage | extensions/edge-canary/dist/src/background.js:110-119 | `getCurrentMode` answers the schedule's mode, not the stored one; `setMode` stores and then checks |

## Left out

- Host.WebStorage: the `localStorage` of the Edge scripts throws only when it is unavailable as a whole. A `setItem` refused for one key while the others succeed (a quota error) is not modelled there, so those scripts' partial writes (the mode stored, then the time stamp or the override end refused) cannot occur in the model. The shared StorageManager does model per-key refusals.
- I/O and the host: logging, the `hazeOverThemeChanged` `CustomEvent` and its payload, `performance` marks, WebKit style tweaks and `chrome.runtime.lastError` are not modelled. The message channel is a method call with the message as a value.
- Real timers and the event loop: a timer is registered in `Host.Timers`, and the callback firing is the environment calling the method that holds its body (`Tick`, `ClearManualOverride`). Async ordering and cross-tab races are not modelled; the unawaited `setStoredMode` in the background's `setMode` runs before the check.
- The clock: `Date.now()` and the local time of day are taken as two separate readings of one instant. Time zones are not modelled.
- Floating-point hours: the schedule and the wait are computed in exact minutes and milliseconds.
- StorageManager: entries are kept decoded. The JSON text of the `localStorage` backend and a `JSON.parse` failure are not modelled.
- Strings.DecimalNumber: `Number` is modelled only for decimal integer text. Its hexadecimal, binary and octal literals, fractions, exponents and `Infinity` read as `NaN` in the model.
- Strings.ParseInt: the result is the exact integer. The rounding of `parseInt` to the nearest double above 2^53 is not modelled; an override time stamp is far below that.
- SharedSwitcher: the inline store's `get` and `remove` (which the manager never calls), the JSON text of other stored values, and `reinitialize` and the `themeControls` helpers are not modelled, except for `testTheme`'s five-minute override. The mode names need no JSON escaping.
- SharedSwitcher.SharedThemeManager.HandleMessage: a message that arrives before the manager exists (`themeManager` null), and the listener's `catch` path, are not modelled.
- Static catalogues: the THEMES css texts of the Edge auto switcher and the configuration's `customCSS` are constructor parameters, not literals. The browser selector and configuration files are not part of this model.
- JavaScript prototype keys (`THEMES['toString']`): validity is exactly the three mode names.
- UI pages, the Orion components and the test scripts are not part of this model.
