/** The Edge Canary background worker: once a minute it compares the
    schedule's mode with the mode kept in `chrome.storage.local` and, when
    they differ, stores the schedule's mode and tells every tab. */
module EdgeBackground {
  import opened Wrappers
  import opened Modes
  import opened ThemeScheduler
  import opened StorageManager
  import opened Host
  import S = SharedSwitcher

  /** The one item the worker keeps. */
  const ModeItem: string := "edgeCanaryThemeMode"
  const CheckMs: int := 60000

  /** A message sent to a tab. */
  datatype Sent = Sent(tab: int, message: S.Message)

  /** The `updateTheme` messages for the tabs, in the order `query` lists
      them. */
  function UpdateMessages(tabs: seq<int>, mode: string): (r: seq<Sent>)
    ensures |r| == |tabs|
    ensures forall i :: 0 <= i < |r| ==> r[i] == Sent(tabs[i], S.Message("updateTheme", mode))
  {
    if |tabs| == 0 then [] else UpdateMessages(tabs[..|tabs| - 1], mode) + [Sent(tabs[|tabs| - 1], S.Message("updateTheme", mode))]
  }

  /** getStoredMode: the stored value when it is truthy, otherwise `day`,
      which is also the answer when there is no `chrome.storage.local`. */
  function StoredModeOf(available: bool, area: map<string, Value>): (v: Value)
    ensures Truthy(v)
    ensures available && ModeItem in area && Truthy(area[ModeItem]) ==> v == area[ModeItem]
  {
    if available && ModeItem in area && Truthy(area[ModeItem]) then area[ModeItem] else Str("day")
  }

  /** setStoredMode(mode); without `chrome.storage.local` it does nothing. */
  function ModeWritten(available: bool, area: map<string, Value>, mode: string): map<string, Value> {
    if available then area[ModeItem := Str(mode)] else area
  }

  /** Whether checkAndUpdateTheme finds the stored mode out of date. */
  predicate CheckNeeded(available: bool, area: map<string, Value>, clock: Instant) {
    StoredModeOf(available, area) != Str(Name(CurrentTimeMode(clock.minute)))
  }

  /** The store after a check. */
  function Checked(available: bool, area: map<string, Value>, clock: Instant): map<string, Value> {
    if CheckNeeded(available, area, clock) then ModeWritten(available, area, Name(CurrentTimeMode(clock.minute))) else area
  }

  /** With a working store one check brings the stored mode to the
      schedule's, so an immediate second check under the same schedule
      mode writes nothing and sends nothing. */
  lemma CheckSettles(area: map<string, Value>, clock: Instant, later: Instant)
    requires CurrentTimeMode(later.minute) == CurrentTimeMode(clock.minute)
    ensures StoredModeOf(true, Checked(true, area, clock)) == Str(Name(CurrentTimeMode(clock.minute)))
    ensures !CheckNeeded(true, Checked(true, area, clock), later)
  {
    var m := CurrentTimeMode(clock.minute);
    assert Name(m) != "";
  }

  /** An empty store already reads as `day`: a daytime check writes
      nothing, while an evening or night check writes its mode. */
  lemma EmptyStoreAtDay(clock: Instant)
    ensures CheckNeeded(true, map[], clock) <==> CurrentTimeMode(clock.minute) != Day
    ensures CurrentTimeMode(clock.minute) == Day ==> Checked(true, map[], clock) == map[]
  {
    ParseName(CurrentTimeMode(clock.minute));
  }

  /** Without `chrome.storage.local` nothing is ever stored, so in the
      evening and at night every check messages the tabs again. */
  lemma NoStoreNeverSettles(area: map<string, Value>, clock: Instant)
    ensures Checked(false, area, clock) == area
    ensures CheckNeeded(false, area, clock) <==> CurrentTimeMode(clock.minute) != Day
  {
    ParseName(CurrentTimeMode(clock.minute));
  }

  class Background {
    /** Whether `chrome.storage.local` exists. */
    const storageAvailable: bool
    var area: map<string, Value>
    /** Whether `chrome.tabs.query` exists. The ids it lists are asked
        afresh at every check, so they are a parameter of each call. */
    const tabsAvailable: bool
    /** Every message sent to a tab so far. */
    var sent: seq<Sent>
    const timers: Timers

    constructor(storageAvailable: bool, area: map<string, Value>, tabsAvailable: bool, timers: Timers)
      ensures this.storageAvailable == storageAvailable && this.area == area
      ensures this.tabsAvailable == tabsAvailable && this.timers == timers && sent == []
    {
      this.storageAvailable := storageAvailable;
      this.area := area;
      this.tabsAvailable := tabsAvailable;
      this.timers := timers;
      sent := [];
    }

    method GetStoredMode() returns (v: Value)
      ensures v == StoredModeOf(storageAvailable, area)
    {
      if storageAvailable && ModeItem in area && Truthy(area[ModeItem]) {
        return area[ModeItem];
      }
      v := Str("day");
    }

    method SetStoredMode(mode: string)
      modifies this
      ensures area == ModeWritten(storageAvailable, old(area), mode) && sent == old(sent)
    {
      if storageAvailable {
        area := area[ModeItem := Str(mode)];
      }
    }

    /** checkAndUpdateTheme: store the schedule's mode and message every
        tab `chrome.tabs.query` lists at that moment (`tabs`), but only
        when the stored mode differs. */
    method CheckAndUpdateTheme(clock: Instant, tabs: seq<int>)
      modifies this
      ensures area == Checked(storageAvailable, old(area), clock)
      ensures sent == old(sent) + (if CheckNeeded(storageAvailable, old(area), clock) && tabsAvailable
                                   then UpdateMessages(tabs, Name(CurrentTimeMode(clock.minute))) else [])
    {
      var current := Name(CurrentTimeMode(clock.minute));
      var stored := GetStoredMode();
      if Str(current) != stored {
        SetStoredMode(current);
        if tabsAvailable {
          var i := 0;
          while i < |tabs|
            invariant 0 <= i <= |tabs|
            invariant area == ModeWritten(storageAvailable, old(area), current)
            invariant sent == old(sent) + UpdateMessages(tabs[..i], current)
          {
            assert tabs[..i + 1][..i] == tabs[..i];
            sent := sent + [Sent(tabs[i], S.Message("updateTheme", current))];
            i := i + 1;
          }
          assert tabs[..i] == tabs;
        }
      }
    }

    /** startThemeChecking: one check now and one every minute. */
    method StartThemeChecking(clock: Instant, tabs: seq<int>) returns (id: nat)
      requires timers.Valid()
      modifies this, timers
      ensures timers.Valid()
      ensures area == Checked(storageAvailable, old(area), clock)
      ensures sent == old(sent) + (if CheckNeeded(storageAvailable, old(area), clock) && tabsAvailable
                                   then UpdateMessages(tabs, Name(CurrentTimeMode(clock.minute))) else [])
      ensures id !in old(timers.intervals) && timers.intervals == old(timers.intervals)[id := CheckMs]
      ensures timers.timeouts == old(timers.timeouts)
    {
      CheckAndUpdateTheme(clock, tabs);
      id := timers.SetInterval(CheckMs);
    }

    /** The popup's messages. `setMode` stores the requested mode and then
        checks, so the store ends at the schedule's mode whatever was asked;
        the tabs hear of it only when the request differed from the
        schedule. Other actions get no answer. */
    method HandleMessage(msg: S.Message, clock: Instant, tabs: seq<int>) returns (resp: Option<S.Response>)
      modifies this
      ensures resp == (if msg.action == "getCurrentMode" then Some(S.ModeReply(Name(CurrentTimeMode(clock.minute))))
                       else if msg.action == "setMode" then Some(S.Done(None)) else None)
      ensures msg.action == "setMode" ==>
                && area == Checked(storageAvailable, ModeWritten(storageAvailable, old(area), msg.mode), clock)
                && sent == old(sent) + (if CheckNeeded(storageAvailable, ModeWritten(storageAvailable, old(area), msg.mode), clock)
                                           && tabsAvailable
                                        then UpdateMessages(tabs, Name(CurrentTimeMode(clock.minute))) else [])
      ensures msg.action != "setMode" ==> area == old(area) && sent == old(sent)
    {
      if msg.action == "getCurrentMode" {
        resp := Some(S.ModeReply(Name(CurrentTimeMode(clock.minute))));
      } else if msg.action == "setMode" {
        SetStoredMode(msg.mode);
        CheckAndUpdateTheme(clock, tabs);
        resp := Some(S.Done(None));
      } else {
        resp := None;
      }
    }
  }

  /** A `setMode` request is undone by the check that follows it: with a
      working store the stored mode is the schedule's, whatever was asked. */
  lemma SetModeIsOverruled(area: map<string, Value>, requested: string, clock: Instant)
    ensures StoredModeOf(true, Checked(true, ModeWritten(true, area, requested), clock)) == Str(Name(CurrentTimeMode(clock.minute)))
    ensures CheckNeeded(true, ModeWritten(true, area, requested), clock) <==>
            (requested != Name(CurrentTimeMode(clock.minute)) && requested != "") || (requested == "" && CurrentTimeMode(clock.minute) != Day)
  {
    var m := CurrentTimeMode(clock.minute);
    ParseName(m);
  }
}
