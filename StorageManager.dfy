/** The storage layer: every key the controllers store is put under the
    prefix `hazeover-theme-` in one of four backends (the extension storage
    area of Chromium or of WebExtension browsers, the page's `localStorage`,
    or an in-memory `Map`), picked once when the manager is built.

    Values are kept decoded: a `localStorage` entry is the value its JSON
    text parses to. Every promise of the source is awaited at once, so a
    call is one atomic step; a promise that rejects is `Err`. */
module StorageManager {
  import opened Wrappers
  import opened Strings

  const Prefix: string := "hazeover-theme-"
  const DefaultOverrideMs: int := 3600000

  /** The values the controllers store: `null`, booleans, integral numbers
      and strings. */
  datatype Value = Null | Bool(b: bool) | Num(n: int) | Str(s: string)

  /** JavaScript truthiness of a stored value. */
  predicate Truthy(v: Value) {
    match v
    case Null => false
    case Bool(b) => b
    case Num(n) => n != 0
    case Str(s) => s != ""
  }

  /** `now < v` with `v` converted to a number (`true` is 1, a string is
      read by `Number`, and `NaN` compares false). */
  predicate JsLess(now: int, v: Value) {
    match v
    case Null => now < 0
    case Bool(b) => now < (if b then 1 else 0)
    case Num(n) => now < n
    case Str(s) => DecimalNumber(s).Some? && now < DecimalNumber(s).value
  }

  /** The backend a manager talks to. `Local(refused)` is the page's
      `localStorage`, whose `setItem` throws (a quota or security error) for
      the full keys in `refused`; which writes the host refuses is a
      parameter of the model. `Detached(t)` is a manager built with an
      explicit `storageType` `t`: the type is kept but no backend object is
      attached. */
  datatype Backend = ChromeArea | WebExtArea | Local(refused: set<string>) | Memory | Detached(storageType: string)

  /** The `storageType` the manager reports. */
  function StorageType(b: Backend): string {
    match b
    case ChromeArea => "chrome"
    case WebExtArea => "webext"
    case Local(_) => "local"
    case Memory => "memory"
    case Detached(t) => t
  }

  predicate Attached(b: Backend) {
    !b.Detached?
  }

  /** A detached manager whose type selects an extension-area branch calls a
      method on the missing backend inside a promise executor: the promise
      it returns rejects. Other detached types answer the default. */
  predicate Rejects(b: Backend) {
    b.Detached? && (b.storageType == "chrome" || b.storageType == "webext")
  }

  /** Which of the host's storage APIs exist, and which full keys the
      page's `localStorage` refuses to store. */
  datatype HostApis = HostApis(chromeStorage: bool, browserStorage: bool, localStorage: bool,
                               localRefused: set<string>)

  /** initializeStorage: `auto` takes the first API present in the order
      chrome.storage, browser.storage, localStorage, falling back to a map;
      any other requested type is kept as given, with nothing attached. */
  function InitialBackend(requested: string, apis: HostApis): (b: Backend)
    ensures requested != "auto" <==> b == Detached(requested)
    ensures StorageType(b) == "memory" && requested == "auto" ==>
              !apis.chromeStorage && !apis.browserStorage && !apis.localStorage
  {
    if requested != "auto" then Detached(requested)
    else if apis.chromeStorage then ChromeArea
    else if apis.browserStorage then WebExtArea
    else if apis.localStorage then Local(apis.localRefused)
    else Memory
  }

  /** Auto detection prefers the Chromium area over everything, and the map
      is only used when no host storage exists. */
  lemma AutoDetectionOrder(apis: HostApis)
    ensures apis.chromeStorage ==> InitialBackend("auto", apis) == ChromeArea
    ensures !apis.chromeStorage && apis.browserStorage ==> InitialBackend("auto", apis) == WebExtArea
    ensures !apis.chromeStorage && !apis.browserStorage && apis.localStorage ==>
              InitialBackend("auto", apis) == Local(apis.localRefused)
    ensures Attached(InitialBackend("auto", apis))
    ensures StorageType(InitialBackend("auto", apis)) in ["chrome", "webext", "local", "memory"]
  {
  }

  // ---------------------------------------------------------------------
  // The operations on the stored entries, as functions

  /** get(key, defaultValue). The extension areas and `localStorage`
      return any stored value; the map backend's `||` turns every falsy
      stored value into the default. */
  function Read(b: Backend, entries: map<string, Value>, key: string, default: Value): Result<Value> {
    var k := Prefix + key;
    match b
    case Detached(_) => if Rejects(b) then Err("TypeError") else Ok(default)
    case Memory => Ok(if k in entries && Truthy(entries[k]) then entries[k] else default)
    case _ => Ok(if k in entries then entries[k] else default)
  }

  /** The page's `localStorage` throws when asked to store under `key`. */
  predicate Refuses(b: Backend, key: string) {
    b.Local? && Prefix + key in b.refused
  }

  /** The new entries and the answer of a write: attached backends store the
      value under the prefixed key and report success, except that a
      `setItem` that throws is caught and reported as failure with nothing
      stored; a detached manager changes nothing and reports failure (or
      rejects). */
  datatype Outcome = Outcome(entries: map<string, Value>, result: Result<bool>)

  function Write(b: Backend, entries: map<string, Value>, key: string, v: Value): Outcome {
    if Rejects(b) then Outcome(entries, Err("TypeError"))
    else if b.Detached? || Refuses(b, key) then Outcome(entries, Ok(false))
    else Outcome(entries[Prefix + key := v], Ok(true))
  }

  function Delete(b: Backend, entries: map<string, Value>, key: string): Outcome {
    if Rejects(b) then Outcome(entries, Err("TypeError"))
    else if b.Detached? then Outcome(entries, Ok(false))
    else Outcome(entries - {Prefix + key}, Ok(true))
  }

  /** The entries whose key does not carry the prefix. */
  function Foreign(entries: map<string, Value>): map<string, Value> {
    map k | k in entries && !StartsWith(k, Prefix) :: entries[k]
  }

  function ClearAll(b: Backend, entries: map<string, Value>): Outcome {
    if Rejects(b) then Outcome(entries, Err("TypeError"))
    else if b.Detached? then Outcome(entries, Ok(false))
    else Outcome(Foreign(entries), Ok(true))
  }

  /** setCurrentMode: the mode is written, and the time of the change only
      when that write succeeded. */
  function WriteMode(b: Backend, entries: map<string, Value>, mode: string, now: int): Outcome {
    var first := Write(b, entries, "mode", Str(mode));
    if first.result == Ok(true) then Outcome(Write(b, first.entries, "last-update", Num(now)).entries, Ok(true))
    else first
  }

  /** isManualOverrideActive: the flag must be exactly `true` and the end
      time truthy, and then the override runs while `now < until`. */
  function OverrideActive(b: Backend, entries: map<string, Value>, now: int): Result<bool> {
    match Read(b, entries, "manual-override", Null)
    case Err(e) => Err(e)
    case Ok(flag) =>
      match Read(b, entries, "manual-until", Null)
      case Err(e) => Err(e)
      case Ok(until) => Ok(flag == Bool(true) && Truthy(until) && JsLess(now, until))
  }

  /** setManualOverride: flag, end time `now + durationMs`, then the mode;
      the answer is the conjunction of the three. */
  function WriteOverride(b: Backend, entries: map<string, Value>, mode: string, durationMs: int, now: int): Outcome {
    var s1 := Write(b, entries, "manual-override", Bool(true));
    if s1.result.Err? then s1
    else
      var s2 := Write(b, s1.entries, "manual-until", Num(now + durationMs));
      if s2.result.Err? then s2
      else
        var s3 := WriteMode(b, s2.entries, mode, now);
        if s3.result.Err? then s3
        else Outcome(s3.entries, Ok(s1.result.value && s2.result.value && s3.result.value))
  }

  function DeleteOverride(b: Backend, entries: map<string, Value>): Outcome {
    var s1 := Delete(b, entries, "manual-override");
    if s1.result.Err? then s1
    else
      var s2 := Delete(b, s1.entries, "manual-until");
      if s2.result.Err? then s2
      else Outcome(s2.entries, Ok(s1.result.value && s2.result.value))
  }

  // ---------------------------------------------------------------------
  // What the operations promise

  /** A value written can be read back, except that the map backend hides a
      falsy value behind the default; a refused write answers `false` and
      leaves the old value. */
  lemma ReadAfterWrite(b: Backend, entries: map<string, Value>, key: string, v: Value, default: Value)
    requires Attached(b)
    ensures Write(b, entries, key, v).result == Ok(!Refuses(b, key))
    ensures Read(b, Write(b, entries, key, v).entries, key, default) ==
            if Refuses(b, key) then Read(b, entries, key, default)
            else Ok(if b == Memory && !Truthy(v) then default else v)
  {
  }

  /** A write touches its own key only, and nothing outside the prefix. */
  lemma WriteIsLocal(b: Backend, entries: map<string, Value>, key: string, other: string, v: Value)
    requires other != Prefix + key
    ensures other in Write(b, entries, key, v).entries <==> other in entries
    ensures other in entries ==> Write(b, entries, key, v).entries[other] == entries[other]
  {
  }

  /** After a removal the default is read, and other keys keep their values. */
  lemma ReadAfterDelete(b: Backend, entries: map<string, Value>, key: string, other: string, default: Value)
    requires Attached(b)
    requires other != key
    ensures Delete(b, entries, key).result == Ok(true)
    ensures Read(b, Delete(b, entries, key).entries, key, default) == Ok(default)
    ensures Read(b, Delete(b, entries, key).entries, other, default) == Read(b, entries, other, default)
  {
    assert Prefix + other != Prefix + key by {
      assert (Prefix + other)[|Prefix|..] == other;
      assert (Prefix + key)[|Prefix|..] == key;
    }
  }

  /** A detached manager never changes the entries. */
  lemma DetachedChangesNothing(b: Backend, entries: map<string, Value>, key: string, v: Value, mode: string, d: int, now: int)
    requires !Attached(b)
    ensures Write(b, entries, key, v).entries == entries
    ensures Delete(b, entries, key).entries == entries
    ensures ClearAll(b, entries).entries == entries
    ensures WriteMode(b, entries, mode, now).entries == entries
    ensures WriteOverride(b, entries, mode, d, now).entries == entries
    ensures DeleteOverride(b, entries).entries == entries
    ensures WriteMode(b, entries, mode, now).result == (if Rejects(b) then Err("TypeError") else Ok(false))
  {
  }

  /** clear removes exactly the prefixed keys, after which every key of the
      manager reads as its default. */
  lemma ClearRemovesOwnKeys(b: Backend, entries: map<string, Value>, k: string, key: string, default: Value)
    requires Attached(b)
    ensures ClearAll(b, entries).result == Ok(true)
    ensures k in ClearAll(b, entries).entries <==> k in entries && !StartsWith(k, Prefix)
    ensures k in ClearAll(b, entries).entries ==> ClearAll(b, entries).entries[k] == entries[k]
    ensures Read(b, ClearAll(b, entries).entries, key, default) == Ok(default)
  {
    assert StartsWith(Prefix + key, Prefix) by {
      assert (Prefix + key)[..|Prefix|] == Prefix;
    }
  }

  /** setCurrentMode on an attached backend stores the mode and the time of
      the change, and answers whether the mode was stored. The time stamp
      is attempted only after the mode was stored, so a refused mode write
      changes nothing at all. */
  lemma WriteModeStoresBoth(b: Backend, entries: map<string, Value>, mode: string, now: int)
    requires Attached(b)
    ensures WriteMode(b, entries, mode, now).result == Ok(!Refuses(b, "mode"))
    ensures WriteMode(b, entries, mode, now).entries ==
            if Refuses(b, "mode") then entries
            else if Refuses(b, "last-update") then entries[Prefix + "mode" := Str(mode)]
            else entries[Prefix + "mode" := Str(mode)][Prefix + "last-update" := Num(now)]
    ensures !Refuses(b, "mode") ==>
              Read(b, WriteMode(b, entries, mode, now).entries, "mode", Null) ==
              Ok(if b == Memory && mode == "" then Null else Str(mode))
  {
    assert Prefix + "mode" != Prefix + "last-update" by {
      assert (Prefix + "mode")[|Prefix|] != (Prefix + "last-update")[|Prefix|];
    }
  }

  /** The guard of setCurrentMode: when the mode write fails, the time stamp
      keeps its old value even where storing it alone would have succeeded. */
  lemma FailedModeWriteKeepsTimeStamp(b: Backend, entries: map<string, Value>, mode: string, now: int)
    requires Refuses(b, "mode") && !Refuses(b, "last-update")
    ensures WriteMode(b, entries, mode, now) == Outcome(entries, Ok(false))
    ensures Write(b, entries, "last-update", Num(now)).entries[Prefix + "last-update"] == Num(now)
    ensures Read(b, WriteMode(b, entries, mode, now).entries, "last-update", Null) ==
            Read(b, entries, "last-update", Null)
  {
  }

  /** Only a stored `true` flag together with a truthy end time that still
      lies ahead makes the override active. */
  lemma OverrideNeedsTrueFlag(b: Backend, entries: map<string, Value>, now: int)
    requires Attached(b)
    ensures OverrideActive(b, entries, now).Ok?
    ensures OverrideActive(b, entries, now).value ==>
              Prefix + "manual-override" in entries && entries[Prefix + "manual-override"] == Bool(true)
              && Prefix + "manual-until" in entries && Truthy(entries[Prefix + "manual-until"])
  {
  }

  /** After setManualOverride(mode, d) at time `now` the override is active
      exactly before `now + d`, unless that end time is 0, which is falsy
      and leaves the override off; the mode is stored too. Each of the three
      writes that is refused turns the answer into `false`. */
  lemma OverrideWindow(b: Backend, entries: map<string, Value>, mode: string, d: int, now: int, later: int)
    requires Attached(b)
    ensures WriteOverride(b, entries, mode, d, now).result ==
            Ok(!Refuses(b, "manual-override") && !Refuses(b, "manual-until") && !Refuses(b, "mode"))
    ensures !Refuses(b, "manual-override") && !Refuses(b, "manual-until") ==>
              OverrideActive(b, WriteOverride(b, entries, mode, d, now).entries, later) ==
              Ok(now + d != 0 && later < now + d)
    ensures !Refuses(b, "mode") ==>
              Read(b, WriteOverride(b, entries, mode, d, now).entries, "mode", Null) ==
              Ok(if b == Memory && mode == "" then Null else Str(mode))
  {
    var s1 := Write(b, entries, "manual-override", Bool(true));
    var s2 := Write(b, s1.entries, "manual-until", Num(now + d));
    WriteModeStoresBoth(b, s2.entries, mode, now);
    WriteModeKeepsOverride(b, s2.entries, mode, now, later);
    assert WriteOverride(b, entries, mode, d, now).entries == WriteMode(b, s2.entries, mode, now).entries;
    if !Refuses(b, "manual-override") && !Refuses(b, "manual-until") {
      OverrideKeysDiffer();
      assert s2.entries[Prefix + "manual-override"] == Bool(true);
      assert s2.entries[Prefix + "manual-until"] == Num(now + d);
    }
  }

  /** The four keys setManualOverride writes are different full keys. */
  lemma OverrideKeysDiffer()
    ensures Prefix + "manual-override" != Prefix + "manual-until"
    ensures Prefix + "mode" != Prefix + "manual-override" && Prefix + "mode" != Prefix + "manual-until"
    ensures Prefix + "last-update" != Prefix + "manual-override" && Prefix + "last-update" != Prefix + "manual-until"
  {
    var kf, ku := Prefix + "manual-override", Prefix + "manual-until";
    var km, kl := Prefix + "mode", Prefix + "last-update";
    assert kf[|Prefix| + 7] != ku[|Prefix| + 7];
    assert km[|Prefix| + 1] != kf[|Prefix| + 1];
    assert km[|Prefix| + 1] != ku[|Prefix| + 1];
    assert kl[|Prefix|] != kf[|Prefix|];
    assert kl[|Prefix|] != ku[|Prefix|];
  }

  /** setCurrentMode leaves the override as it was. */
  lemma WriteModeKeepsOverride(b: Backend, entries: map<string, Value>, mode: string, now: int, later: int)
    requires Attached(b)
    ensures OverrideActive(b, WriteMode(b, entries, mode, now).entries, later) == OverrideActive(b, entries, later)
  {
    WriteModeStoresBoth(b, entries, mode, now);
    OverrideKeysDiffer();
    var e := WriteMode(b, entries, mode, now).entries;
    assert Read(b, e, "manual-override", Null) == Read(b, entries, "manual-override", Null);
    assert Read(b, e, "manual-until", Null) == Read(b, entries, "manual-until", Null);
  }

  /** clearManualOverride switches the override off for good and leaves the
      stored mode as it was. */
  lemma DeleteOverrideDeactivates(b: Backend, entries: map<string, Value>, later: int, default: Value)
    requires Attached(b)
    ensures DeleteOverride(b, entries).result == Ok(true)
    ensures OverrideActive(b, DeleteOverride(b, entries).entries, later) == Ok(false)
    ensures Read(b, DeleteOverride(b, entries).entries, "mode", default) == Read(b, entries, "mode", default)
  {
    var km := Prefix + "mode";
    assert km != Prefix + "manual-override" && km != Prefix + "manual-until" by {
      assert km[|Prefix| + 1] != (Prefix + "manual-override")[|Prefix| + 1];
      assert km[|Prefix| + 1] != (Prefix + "manual-until")[|Prefix| + 1];
    }
  }

  // ---------------------------------------------------------------------
  // The manager object

  class StorageManager {
    const backend: Backend
    /** The contents of the backend, under their full keys. */
    var entries: map<string, Value>

    /** `new StorageManager(requested)` on a host with the given APIs whose
        storage already holds `initial`. */
    constructor(requested: string, apis: HostApis, initial: map<string, Value>)
      ensures backend == InitialBackend(requested, apis)
      ensures entries == initial
    {
      backend := InitialBackend(requested, apis);
      entries := initial;
    }

    method Get(key: string, default: Value) returns (r: Result<Value>)
      ensures r == Read(backend, entries, key, default)
    {
      var k := Prefix + key;
      match backend {
        case Detached(t) =>
          if t == "chrome" || t == "webext" {
            r := Err("TypeError");
          } else {
            r := Ok(default);
          }
        case Memory =>
          if k in entries && Truthy(entries[k]) {
            r := Ok(entries[k]);
          } else {
            r := Ok(default);
          }
        case _ =>
          if k in entries {
            r := Ok(entries[k]);
          } else {
            r := Ok(default);
          }
      }
    }

    method Set(key: string, v: Value) returns (r: Result<bool>)
      modifies this
      ensures Outcome(entries, r) == Write(backend, old(entries), key, v)
    {
      if Rejects(backend) {
        r := Err("TypeError");
      } else if backend.Detached? || Refuses(backend, key) {
        r := Ok(false);
      } else {
        entries := entries[Prefix + key := v];
        r := Ok(true);
      }
    }

    method Remove(key: string) returns (r: Result<bool>)
      modifies this
      ensures Outcome(entries, r) == Delete(backend, old(entries), key)
    {
      if Rejects(backend) {
        r := Err("TypeError");
      } else if backend.Detached? {
        r := Ok(false);
      } else {
        entries := entries - {Prefix + key};
        r := Ok(true);
      }
    }

    /** clear: collect the prefixed keys, then delete them one by one. */
    method Clear() returns (r: Result<bool>)
      modifies this
      ensures Outcome(entries, r) == ClearAll(backend, old(entries))
    {
      if Rejects(backend) {
        return Err("TypeError");
      } else if backend.Detached? {
        return Ok(false);
      }
      var pending := set k | k in entries && StartsWith(k, Prefix);
      while pending != {}
        invariant pending <= entries.Keys
        invariant forall k :: k in entries <==> k in old(entries) && (k in pending || !StartsWith(k, Prefix))
        invariant forall k :: k in entries ==> entries[k] == old(entries)[k]
        invariant forall k :: k in pending ==> StartsWith(k, Prefix)
        decreases pending
      {
        var k :| k in pending;
        entries := entries - {k};
        pending := pending - {k};
      }
      assert entries == Foreign(old(entries));
      r := Ok(true);
    }

    method GetCurrentMode() returns (r: Result<Value>)
      ensures r == Read(backend, entries, "mode", Null)
    {
      r := Get("mode", Null);
    }

    method SetCurrentMode(mode: string, now: int) returns (r: Result<bool>)
      modifies this
      ensures Outcome(entries, r) == WriteMode(backend, old(entries), mode, now)
    {
      r := Set("mode", Str(mode));
      if r == Ok(true) {
        var _ := Set("last-update", Num(now));
      }
    }

    method IsManualOverrideActive(now: int) returns (r: Result<bool>)
      ensures r == OverrideActive(backend, entries, now)
    {
      var flag := Get("manual-override", Null);
      if flag.Err? {
        return Err(flag.message);
      }
      var until := Get("manual-until", Null);
      if until.Err? {
        return Err(until.message);
      }
      if flag.value == Bool(true) && Truthy(until.value) {
        r := Ok(JsLess(now, until.value));
      } else {
        r := Ok(false);
      }
    }

    method SetManualOverride(mode: string, durationMs: int, now: int) returns (r: Result<bool>)
      modifies this
      ensures Outcome(entries, r) == WriteOverride(backend, old(entries), mode, durationMs, now)
    {
      var until := now + durationMs;
      var s1 := Set("manual-override", Bool(true));
      if s1.Err? {
        return s1;
      }
      var s2 := Set("manual-until", Num(until));
      if s2.Err? {
        return s2;
      }
      var s3 := SetCurrentMode(mode, now);
      if s3.Err? {
        return s3;
      }
      r := Ok(s1.value && s2.value && s3.value);
    }

    method ClearManualOverride() returns (r: Result<bool>)
      modifies this
      ensures Outcome(entries, r) == DeleteOverride(backend, old(entries))
    {
      var s1 := Remove("manual-override");
      if s1.Err? {
        return s1;
      }
      var s2 := Remove("manual-until");
      if s2.Err? {
        return s2;
      }
      r := Ok(s1.value && s2.value);
    }
  }
}
