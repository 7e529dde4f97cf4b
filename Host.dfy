/** The parts of the browser the controllers act on: the page's `<style>`
    elements and the attributes of `<body>` and `<html>`, the timer
    registry behind `setInterval`/`setTimeout`, the string store behind
    `localStorage`, and the clock, read as one instant. */
module Host {
  import opened Wrappers
  import opened Strings
  import opened ThemeScheduler

  /** One reading of the host clock: `Date.now()` and the local time of day
      of the same moment (the time zone is not modelled, so the two are
      read independently). */
  datatype Instant = Instant(epochMs: int, minute: MinuteOfDay)

  // ---------------------------------------------------------------------
  // Style elements

  /** A `<style>` element: its `id` and its text. */
  datatype Style = Style(id: string, text: string)

  /** The selector `style[id*="hazeover"], style[id*="theme"]`. */
  predicate IsThemeStyle(s: Style) {
    Contains(s.id, "hazeover") || Contains(s.id, "theme")
  }

  /** The styles the selector does not match, in document order. */
  function WithoutThemeStyles(ss: seq<Style>): (r: seq<Style>)
    ensures |r| <= |ss|
    decreases |ss|
  {
    if |ss| == 0 then []
    else if IsThemeStyle(ss[0]) then WithoutThemeStyles(ss[1..])
    else [ss[0]] + WithoutThemeStyles(ss[1..])
  }

  /** `getElementById(id)` then `remove()`: the first element with that id
      leaves, if there is one. */
  function WithoutFirst(ss: seq<Style>, id: string): (r: seq<Style>)
    decreases |ss|
  {
    if |ss| == 0 then []
    else if ss[0].id == id then ss[1..]
    else [ss[0]] + WithoutFirst(ss[1..], id)
  }

  /** Past an element with another id, removal goes on in the rest. */
  lemma WithoutFirstStep(ss: seq<Style>, i: nat, id: string)
    requires i < |ss| && ss[i].id != id
    requires WithoutFirst(ss, id) == ss[..i] + WithoutFirst(ss[i..], id)
    ensures WithoutFirst(ss, id) == ss[..i + 1] + WithoutFirst(ss[i + 1..], id)
  {
    var rest := WithoutFirst(ss[i + 1..], id);
    assert ss[i..][1..] == ss[i + 1..];
    assert WithoutFirst(ss[i..], id) == [ss[i]] + rest;
    assert ss[..i] + ([ss[i]] + rest) == (ss[..i] + [ss[i]]) + rest;
    assert ss[..i + 1] == ss[..i] + [ss[i]];
  }

  /** At the first element with the id, removal drops exactly that one. */
  lemma WithoutFirstFound(ss: seq<Style>, i: nat, id: string)
    requires i < |ss| && ss[i].id == id
    requires WithoutFirst(ss, id) == ss[..i] + WithoutFirst(ss[i..], id)
    ensures WithoutFirst(ss, id) == ss[..i] + ss[i + 1..]
  {
    assert ss[i..][1..] == ss[i + 1..];
  }

  /** How many styles carry the id. */
  function CountId(ss: seq<Style>, id: string): nat
    decreases |ss|
  {
    if |ss| == 0 then 0 else (if ss[0].id == id then 1 else 0) + CountId(ss[1..], id)
  }

  /** How many styles the theme selector matches. */
  function CountThemeStyles(ss: seq<Style>): nat
    decreases |ss|
  {
    if |ss| == 0 then 0 else (if IsThemeStyle(ss[0]) then 1 else 0) + CountThemeStyles(ss[1..])
  }

  lemma {:induction false} CountIdAppend(a: seq<Style>, b: seq<Style>, id: string)
    ensures CountId(a + b, id) == CountId(a, id) + CountId(b, id)
    decreases |a|
  {
    if |a| > 0 {
      assert (a + b)[1..] == a[1..] + b;
      CountIdAppend(a[1..], b, id);
    } else {
      assert a + b == b;
    }
  }

  lemma {:induction false} CountThemeStylesAppend(a: seq<Style>, b: seq<Style>)
    ensures CountThemeStyles(a + b) == CountThemeStyles(a) + CountThemeStyles(b)
    decreases |a|
  {
    if |a| > 0 {
      assert (a + b)[1..] == a[1..] + b;
      CountThemeStylesAppend(a[1..], b);
    } else {
      assert a + b == b;
    }
  }

  /** Removal by id takes away one element with that id, if any, and leaves
      every other id's count as it was. */
  lemma {:induction false} WithoutFirstCounts(ss: seq<Style>, id: string, other: string)
    requires other != id
    ensures CountId(WithoutFirst(ss, id), id) == if CountId(ss, id) > 0 then CountId(ss, id) - 1 else 0
    ensures CountId(WithoutFirst(ss, id), other) == CountId(ss, other)
    decreases |ss|
  {
    if |ss| > 0 && ss[0].id != id {
      WithoutFirstCounts(ss[1..], id, other);
      assert ([ss[0]] + WithoutFirst(ss[1..], id))[1..] == WithoutFirst(ss[1..], id);
    }
  }

  /** Removal by id keeps the styles with other ids, and adds nothing. */
  lemma {:induction false} WithoutFirstKeeps(ss: seq<Style>, id: string, s: Style)
    ensures s in WithoutFirst(ss, id) ==> s in ss
    ensures s in ss && s.id != id ==> s in WithoutFirst(ss, id)
    decreases |ss|
  {
    if |ss| > 0 && ss[0].id != id {
      WithoutFirstKeeps(ss[1..], id, s);
    }
  }

  /** Removing the element with an id and appending a new one with that id
      keeps the id unique. */
  lemma ReplaceKeepsUnique(ss: seq<Style>, id: string, text: string)
    requires CountId(ss, id) <= 1
    ensures CountId(WithoutFirst(ss, id) + [Style(id, text)], id) == 1
  {
    WithoutFirstCounts(ss, id, id + "-");
    CountIdAppend(WithoutFirst(ss, id), [Style(id, text)], id);
    assert [Style(id, text)][1..] == [];
  }

  /** The filter keeps exactly the styles the selector does not match. */
  lemma {:induction false} WithoutThemeStylesKeeps(ss: seq<Style>, s: Style)
    ensures s in WithoutThemeStyles(ss) <==> s in ss && !IsThemeStyle(s)
    decreases |ss|
  {
    if |ss| > 0 {
      WithoutThemeStylesKeeps(ss[1..], s);
      assert ss == [ss[0]] + ss[1..];
    }
  }

  /** After the filter no theme style is left. */
  lemma {:induction false} WithoutThemeStylesCount(ss: seq<Style>)
    ensures CountThemeStyles(WithoutThemeStyles(ss)) == 0
    decreases |ss|
  {
    if |ss| > 0 {
      WithoutThemeStylesCount(ss[1..]);
      if !IsThemeStyle(ss[0]) {
        assert ([ss[0]] + WithoutThemeStyles(ss[1..]))[1..] == WithoutThemeStyles(ss[1..]);
      }
    }
  }

  /** Filtering twice is filtering once. */
  lemma {:induction false} WithoutThemeStylesIdempotent(ss: seq<Style>)
    ensures WithoutThemeStyles(WithoutThemeStyles(ss)) == WithoutThemeStyles(ss)
    decreases |ss|
  {
    if |ss| > 0 {
      WithoutThemeStylesIdempotent(ss[1..]);
      if !IsThemeStyle(ss[0]) {
        assert ([ss[0]] + WithoutThemeStyles(ss[1..]))[1..] == WithoutThemeStyles(ss[1..]);
      }
    }
  }

  /** The filter works element by element. */
  lemma {:induction false} WithoutThemeStylesAppend(a: seq<Style>, b: seq<Style>)
    ensures WithoutThemeStyles(a + b) == WithoutThemeStyles(a) + WithoutThemeStyles(b)
    decreases |a|
  {
    if |a| > 0 {
      assert (a + b)[1..] == a[1..] + b;
      WithoutThemeStylesAppend(a[1..], b);
    } else {
      assert a + b == b;
    }
  }

  /** The state of the page the controllers touch. */
  datatype PageView = PageView(styles: seq<Style>, body: map<string, string>, root: map<string, string>)

  /** The document: its style elements in document order (appending to
      `<head>` puts a style last), and the attributes of `<body>` and of
      the root `<html>` element. */
  class Page {
    var styles: seq<Style>
    var bodyAttrs: map<string, string>
    var rootAttrs: map<string, string>

    constructor(v: PageView)
      ensures View() == v
    {
      styles := v.styles;
      bodyAttrs := v.body;
      rootAttrs := v.root;
    }

    function View(): PageView
      reads this
    {
      PageView(styles, bodyAttrs, rootAttrs)
    }

    /** `document.getElementById(id)` and, when found, `remove()`. */
    method RemoveById(id: string)
      modifies this
      ensures View() == old(View()).(styles := WithoutFirst(old(styles), id))
    {
      var ss := styles;
      var i := 0;
      while i < |ss| && ss[i].id != id
        invariant 0 <= i <= |ss|
        invariant WithoutFirst(ss, id) == ss[..i] + WithoutFirst(ss[i..], id)
        invariant View() == old(View())
      {
        WithoutFirstStep(ss, i, id);
        i := i + 1;
      }
      if i < |ss| {
        WithoutFirstFound(ss, i, id);
        styles := ss[..i] + ss[i + 1..];
      } else {
        assert ss[..i] == ss;
      }
    }

    /** `document.querySelectorAll('style[id*="hazeover"], style[id*="theme"]')`
        and `remove()` on each match. */
    method RemoveThemeStyles()
      modifies this
      ensures View() == old(View()).(styles := WithoutThemeStyles(old(styles)))
    {
      var kept: seq<Style> := [];
      var i := 0;
      while i < |styles|
        invariant 0 <= i <= |styles|
        invariant kept == WithoutThemeStyles(styles[..i])
        invariant View() == old(View())
      {
        assert styles[..i + 1] == styles[..i] + [styles[i]];
        WithoutThemeStylesAppend(styles[..i], [styles[i]]);
        assert [styles[i]][1..] == [];
        if !IsThemeStyle(styles[i]) {
          kept := kept + [styles[i]];
        }
        i := i + 1;
      }
      assert styles[..i] == styles;
      styles := kept;
    }

    /** `document.head.appendChild(style)`. */
    method AppendStyle(s: Style)
      modifies this
      ensures View() == old(View()).(styles := old(styles) + [s])
    {
      styles := styles + [s];
    }

    method SetBodyAttribute(name: string, value: string)
      modifies this
      ensures View() == old(View()).(body := old(bodyAttrs)[name := value])
    {
      bodyAttrs := bodyAttrs[name := value];
    }

    method SetRootAttribute(name: string, value: string)
      modifies this
      ensures View() == old(View()).(root := old(rootAttrs)[name := value])
    {
      rootAttrs := rootAttrs[name := value];
    }

    method RemoveBodyAttribute(name: string)
      modifies this
      ensures View() == old(View()).(body := old(bodyAttrs) - {name})
    {
      bodyAttrs := bodyAttrs - {name};
    }

    method RemoveRootAttribute(name: string)
      modifies this
      ensures View() == old(View()).(root := old(rootAttrs) - {name})
    {
      rootAttrs := rootAttrs - {name};
    }
  }

  // ---------------------------------------------------------------------
  // Timers

  /** The window's timer registry: the live intervals with their periods,
      the scheduled timeouts with their delays, and the next id to hand out
      (ids start at 1, so every id is truthy). A callback firing is the
      environment calling the controller method that holds its body. */
  class Timers {
    var intervals: map<nat, int>
    var timeouts: map<nat, int>
    var nextId: nat

    ghost predicate Valid()
      reads this
    {
      && nextId >= 1
      && (forall id :: id in intervals ==> 1 <= id < nextId)
      && (forall id :: id in timeouts ==> 1 <= id < nextId)
    }

    constructor()
      ensures Valid() && intervals == map[] && timeouts == map[]
    {
      intervals := map[];
      timeouts := map[];
      nextId := 1;
    }

    /** `setInterval(callback, period)`: a fresh id. */
    method SetInterval(period: int) returns (id: nat)
      requires Valid()
      modifies this
      ensures Valid()
      ensures id == old(nextId) && nextId == id + 1 && id !in old(intervals) && id !in old(timeouts)
      ensures intervals == old(intervals)[id := period] && timeouts == old(timeouts)
    {
      id := nextId;
      intervals := intervals[id := period];
      nextId := nextId + 1;
    }

    /** `setTimeout(callback, delay)`: a fresh id. */
    method SetTimeout(delay: int) returns (id: nat)
      requires Valid()
      modifies this
      ensures Valid()
      ensures id == old(nextId) && nextId == id + 1 && id !in old(intervals) && id !in old(timeouts)
      ensures timeouts == old(timeouts)[id := delay] && intervals == old(intervals)
    {
      id := nextId;
      timeouts := timeouts[id := delay];
      nextId := nextId + 1;
    }

    /** `clearInterval(id)`; an unknown id is ignored. */
    method ClearInterval(id: nat)
      requires Valid()
      modifies this
      ensures Valid()
      ensures intervals == old(intervals) - {id} && timeouts == old(timeouts) && nextId == old(nextId)
    {
      intervals := intervals - {id};
    }
  }

  // ---------------------------------------------------------------------
  // localStorage

  /** The page's `localStorage`: string items, or no store at all (access
      throws), which the callers catch. */
  class WebStorage {
    const available: bool
    var items: map<string, string>

    constructor(available: bool, items: map<string, string>)
      ensures this.available == available && this.items == items
    {
      this.available := available;
      this.items := items;
    }

    /** `getItem(key)`: `None` is `null`; `Err` is the thrown error. */
    method GetItem(key: string) returns (r: Result<Option<string>>)
      ensures r == (if !available then Err("SecurityError")
                    else if key in items then Ok(Some(items[key])) else Ok(None))
    {
      if !available {
        return Err("SecurityError");
      }
      r := if key in items then Ok(Some(items[key])) else Ok(None);
    }

    method SetItem(key: string, value: string) returns (r: Result<()>)
      modifies this
      ensures r == (if available then Ok(()) else Err("SecurityError"))
      ensures items == if available then old(items)[key := value] else old(items)
    {
      if !available {
        return Err("SecurityError");
      }
      items := items[key := value];
      r := Ok(());
    }

    method RemoveItem(key: string) returns (r: Result<()>)
      modifies this
      ensures r == (if available then Ok(()) else Err("SecurityError"))
      ensures items == if available then old(items) - {key} else old(items)
    {
      if !available {
        return Err("SecurityError");
      }
      items := items - {key};
      r := Ok(());
    }
  }
}
