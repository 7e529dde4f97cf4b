/** The colour schemes every browser shares, the CSS template they are
    poured into, and the browser theme record built from both. */
module BaseThemes {
  import opened Wrappers
  import opened Strings
  import opened Modes

  /** One entry of BASE_COLOR_SCHEMES. */
  datatype ColorScheme = ColorScheme(
    bg: string, border: string, accent: string, text: string,
    sidebar: string, shadow: string, focus: string,
    name: string, description: string)

  /** BASE_COLOR_SCHEMES. */
  function SchemeOf(m: Mode): ColorScheme {
    match m
    case Day => ColorScheme("#F8F9FA", "#E9ECEF", "#0078d4", "#2C3E50",
                            "rgba(248, 249, 250, 0.95)", "rgba(0,0,0,0.1)", "rgba(0, 120, 212, 0.3)",
                            "Day Mode", "Clean and bright for daytime productivity")
    case Evening => ColorScheme("#FFF8F0", "#FF8C42", "#E67E22", "#8B4513",
                                "rgba(255, 140, 66, 0.15)", "rgba(0,0,0,0.1)", "rgba(255, 140, 66, 0.4)",
                                "Evening Mode", "Warm focus mode for evening work sessions")
    case Night => ColorScheme("#1A1A2E", "#722F37", "#9B59B6", "#ECF0F1",
                              "rgba(45, 27, 105, 0.9)", "rgba(0,0,0,0.3)", "rgba(155, 89, 182, 0.2)",
                              "Night Mode", "Dark theme for late-night sessions")
  }

  /** getAvailableModes: the keys of the table, in their written order. */
  function GetAvailableModes(): (r: seq<string>)
    ensures |r| == 3 && forall s :: s in r <==> Parse(s).Some?
    ensures Parse(r[0]) == Some(Day) && Parse(r[1]) == Some(Evening) && Parse(r[2]) == Some(Night)
    ensures forall i, j :: 0 <= i < j < |r| ==> r[i] != r[j]
  {
    ModeNames
  }

  /** isValidMode: the name is one of the table's own keys. */
  predicate IsValidMode(s: string) {
    Parse(s).Some?
  }

  /** getThemeColors: the scheme, or `null` for any other name. */
  function GetThemeColors(s: string): (r: Option<ColorScheme>)
    ensures r.Some? <==> IsValidMode(s)
    ensures r.Some? ==> r.value == SchemeOf(Parse(s).value)
  {
    match Parse(s)
    case None => None
    case Some(m) => Some(SchemeOf(m))
  }

  /** The table lists each mode under its own name, and the modes the
      validator accepts are exactly the listed ones. */
  lemma AvailableModesAreValid(s: string)
    ensures s in GetAvailableModes() <==> IsValidMode(s)
    ensures IsValidMode(s) <==> GetThemeColors(s).Some?
  {
  }

  /** The schemes of the three modes are pairwise different. */
  lemma SchemesDiffer(m: Mode, n: Mode)
    ensures SchemeOf(m) == SchemeOf(n) <==> m == n
    ensures SchemeOf(m).bg == SchemeOf(n).bg <==> m == n
  {
  }

  // ---------------------------------------------------------------------
  // The root template and its placeholders

  /** The colour slots of the root template. */
  datatype Slot = Bg | Border | Accent | Text | Sidebar | Shadow | Focus

  function SlotName(s: Slot): string {
    match s
    case Bg => "bg"
    case Border => "border"
    case Accent => "accent"
    case Text => "text"
    case Sidebar => "sidebar"
    case Shadow => "shadow"
    case Focus => "focus"
  }

  /** The text `{{name}}` the template holds for a slot. */
  function Placeholder(s: Slot): string {
    Braced(SlotName(s))
  }

  function Braced(name: string): string {
    "{{" + name + "}}"
  }

  /** The colour of a scheme that fills a slot. */
  function SlotValue(c: ColorScheme, s: Slot): string {
    match s
    case Bg => c.bg
    case Border => c.border
    case Accent => c.accent
    case Text => c.text
    case Sidebar => c.sidebar
    case Shadow => c.shadow
    case Focus => c.focus
  }

  /** A template cut at its placeholders: literal text, or a slot. */
  datatype Piece = Lit(text: string) | Hole(slot: Slot)

  /** The text of a cut template, each slot written as its placeholder. */
  function Render(ps: seq<Piece>): string
    decreases |ps|
  {
    if |ps| == 0 then ""
    else
      (match ps[0]
       case Lit(t) => t
       case Hole(s) => Placeholder(s)) + Render(ps[1..])
  }

  /** The pieces with every hole for `slot` turned into the literal `v`. */
  function Fill(ps: seq<Piece>, slot: Slot, v: string): (r: seq<Piece>)
    ensures |r| == |ps|
    decreases |ps|
  {
    if |ps| == 0 then []
    else [if ps[0] == Hole(slot) then Lit(v) else ps[0]] + Fill(ps[1..], slot, v)
  }

  /** Every literal piece is text in which no placeholder can begin. */
  predicate LiteralsSafe(ps: seq<Piece>) {
    forall p :: p in ps && p.Lit? ==> NoDoubleBrace(p.text)
  }

  /** BASE_CSS_TEMPLATE: the root block cut at its placeholders, then the
      base and the focus blocks. */
  datatype CssTemplate = CssTemplate(root: seq<Piece>, base: string, focus: string)

  /** A template whose root block can be filled by global replacement. */
  predicate TemplateSafe(tpl: CssTemplate) {
    LiteralsSafe(tpl.root)
  }

  /** The template as the source writes it. */
  const BaseCssTemplate: CssTemplate := CssTemplate(
    [Lit("\n    :root {\n      --hazeover-bg: "), Hole(Bg),
     Lit(" !important;\n      --hazeover-border: "), Hole(Border),
     Lit(" !important;\n      --hazeover-accent: "), Hole(Accent),
     Lit(" !important;\n      --hazeover-text: "), Hole(Text),
     Lit(" !important;\n      --hazeover-sidebar: "), Hole(Sidebar),
     Lit(" !important;\n      --hazeover-shadow: "), Hole(Shadow),
     Lit(" !important;\n      --hazeover-focus: "), Hole(Focus),
     Lit(" !important;\n    }\n  ")],
    "\n    /* HazeOver Base Styles - Universal */\n    * {\n      transition: all 0.3s ease;\n    }\n    \n    body {\n      background: var(--hazeover-bg) !important;\n      color: var(--hazeover-text) !important;\n    }\n  ",
    "\n    /* Focus and interaction styles */\n    :focus {\n      outline: 2px solid var(--hazeover-accent) !important;\n      outline-offset: 2px;\n      box-shadow: 0 0 15px var(--hazeover-focus);\n    }\n    \n    :hover {\n      box-shadow: 0 2px 8px var(--hazeover-shadow);\n      transform: translateY(-1px);\n    }\n  ")

  /** The slots in the order generateThemeCSS replaces them. */
  const SlotOrder: seq<Slot> := [Bg, Border, Accent, Text, Sidebar, Shadow, Focus]

  /** The seven chained global replacements of generateThemeCSS, on the root block. */
  function SubstituteRoot(tpl: CssTemplate, c: ColorScheme): string {
    Substitute(Render(tpl.root), c, SlotOrder)
  }

  /** The chained global replacements of the placeholders of `slots`, first
      slot first, each by the scheme's colour for it. */
  function Substitute(t: string, c: ColorScheme, slots: seq<Slot>): string
    decreases |slots|
  {
    if |slots| == 0 then t
    else Substitute(ReplaceAll(t, Placeholder(slots[0]), SlotValue(c, slots[0])), c, slots[1..])
  }

  /** generateThemeCSS(mode, customSelectors, {css: customCss}) over the
      template `tpl` (BaseCssTemplate in the source); an absent `css` is the
      empty text. The selectors are accepted and not used. */
  function GenerateThemeCss(tpl: CssTemplate, mode: string, customSelectors: map<string, seq<string>>,
                            customCss: string): (r: Result<string>)
    ensures r.Err? <==> !IsValidMode(mode)
    ensures r.Err? ==> r.message == "Invalid theme mode: " + mode
  {
    match GetThemeColors(mode)
    case None => Err("Invalid theme mode: " + mode)
    case Some(colors) =>
      var css := SubstituteRoot(tpl, colors) + tpl.base + tpl.focus;
      Ok(if customCss != "" then css + customCss else css)
  }

  // ---------------------------------------------------------------------
  // Why the substitution fills every slot

  predicate IsLowerLetter(c: char) {
    'a' <= c <= 'z'
  }

  lemma SlotNameLetters(s: Slot)
    ensures |SlotName(s)| > 0
    ensures forall i :: 0 <= i < |SlotName(s)| ==> IsLowerLetter(SlotName(s)[i])
  {
  }

  lemma SlotNamesDiffer(s: Slot, q: Slot)
    requires s != q
    ensures SlotName(s) != SlotName(q)
  {
  }

  /** Text without `{` cannot hold the start of a placeholder. */
  lemma BraceFree(s: string)
    requires '{' !in s
    ensures NoDoubleBrace(s)
  {
    forall i | 0 <= i < |s| ensures s[i] != '{' {
      assert s[i] in s;
    }
  }

  /** A placeholder is not the start of any other slot's placeholder. */
  lemma OtherPlaceholderDoesNotMatch(q: Slot, slot: Slot, rest: string)
    requires q != slot
    ensures !StartsWith(Placeholder(q) + rest, Placeholder(slot))
  {
    var s := Placeholder(q) + rest;
    var x := SlotName(slot);
    var y := SlotName(q);
    var p := Placeholder(slot);
    SlotNameLetters(slot);
    SlotNameLetters(q);
    if |x| < |y| {
      assert s[2 + |x|] != p[2 + |x|];
    } else if |x| > |y| {
      assert |p| <= |s| ==> s[2 + |y|] != p[2 + |y|];
    } else {
      SlotNamesDiffer(slot, q);
      var i :| 0 <= i < |x| && x[i] != y[i];
      assert s[2 + i] != p[2 + i];
    }
  }

  /** A character at which the pattern does not match is copied through. */
  lemma NoMatchAtFront(c: char, u: string, p: string, v: string)
    requires |p| > 0 && !StartsWith([c] + u, p)
    ensures ReplaceAll([c] + u, p, v) == [c] + ReplaceAll(u, p, v)
  {
    assert ([c] + u)[1..] == u;
  }

  /** A `{{name}}` text that the pattern `p` does not match at its front is
      copied through by the replacement. */
  lemma BracedNamePassesThrough(y: string, rest: string, p: string, v: string)
    requires |y| > 0 && forall i :: 0 <= i < |y| ==> IsLowerLetter(y[i])
    requires |p| >= 2 && p[0] == '{' && p[1] == '{'
    requires !StartsWith(Braced(y) + rest, p)
    ensures ReplaceAll(Braced(y) + rest, p, v) == Braced(y) + ReplaceAll(rest, p, v)
  {
    var tail := y + "}}";
    assert '{' !in tail by {
      forall i | 0 <= i < |tail| ensures tail[i] != '{' {
        if i < |y| {
          assert IsLowerLetter(y[i]);
        }
      }
    }
    var u := tail + rest;
    var w := ['{'] + u;
    assert Braced(y) + rest == ['{'] + w;
    assert !StartsWith(w, p) by {
      assert |p| <= |w| ==> w[1] != p[1];
    }
    NoMatchAtFront('{', w, p, v);
    NoMatchAtFront('{', u, p, v);
    BraceFree(tail);
    ReplaceAllSkips(tail, rest, p, v);
    assert Braced(y) == ['{'] + ['{'] + tail;
  }

  /** Another slot's placeholder is copied through by the replacement. */
  lemma OtherPlaceholderPassesThrough(q: Slot, slot: Slot, rest: string, v: string)
    requires q != slot
    ensures ReplaceAll(Placeholder(q) + rest, Placeholder(slot), v) ==
            Placeholder(q) + ReplaceAll(rest, Placeholder(slot), v)
  {
    SlotNameLetters(q);
    OtherPlaceholderDoesNotMatch(q, slot, rest);
    BracedNamePassesThrough(SlotName(q), rest, Placeholder(slot), v);
  }

  /** One global replacement of a slot's placeholder fills exactly the
      holes of that slot. */
  lemma {:induction false} ReplaceFillsSlot(ps: seq<Piece>, slot: Slot, v: string)
    requires LiteralsSafe(ps)
    ensures ReplaceAll(Render(ps), Placeholder(slot), v) == Render(Fill(ps, slot, v))
    decreases |ps|
  {
    if |ps| > 0 {
      var p := Placeholder(slot);
      var rest := Render(ps[1..]);
      assert LiteralsSafe(ps[1..]) by {
        forall x | x in ps[1..] ensures x in ps {
        }
      }
      ReplaceFillsSlot(ps[1..], slot, v);
      assert Fill(ps, slot, v)[1..] == Fill(ps[1..], slot, v);
      match ps[0]
      case Lit(t) =>
        assert ps[0] in ps;
        ReplaceAllSkips(t, rest, p, v);
      case Hole(q) =>
        if q == slot {
          ReplaceAllMatch(rest, p, v);
        } else {
          OtherPlaceholderPassesThrough(q, slot, rest, v);
        }
    }
  }

  /** Filling keeps the literals safe when the inserted text is. */
  lemma {:induction false} FillKeepsSafe(ps: seq<Piece>, slot: Slot, v: string)
    requires LiteralsSafe(ps) && NoDoubleBrace(v)
    ensures LiteralsSafe(Fill(ps, slot, v))
  {
    forall x | x in Fill(ps, slot, v) && x.Lit? ensures NoDoubleBrace(x.text) {
      var i :| 0 <= i < |Fill(ps, slot, v)| && Fill(ps, slot, v)[i] == x;
      FillAt(ps, slot, v, i);
      assert ps[i] in ps;
    }
  }

  /** Position `i` of a filled template. */
  lemma {:induction false} FillAt(ps: seq<Piece>, slot: Slot, v: string, i: nat)
    requires i < |ps|
    ensures Fill(ps, slot, v)[i] == if ps[i] == Hole(slot) then Lit(v) else ps[i]
    decreases |ps|
  {
    if i > 0 {
      FillAt(ps[1..], slot, v, i - 1);
    }
  }

  /** After filling `slot`, its holes are gone and every other hole stays. */
  lemma {:induction false} FillRemovesHoles(ps: seq<Piece>, slot: Slot, v: string, q: Slot)
    ensures Hole(q) in Fill(ps, slot, v) <==> Hole(q) in ps && q != slot
    decreases |ps|
  {
    if |ps| > 0 {
      FillRemovesHoles(ps[1..], slot, v, q);
      assert ps == [ps[0]] + ps[1..];
    }
  }

  /** The text of a cut template with every slot written as the scheme's colour:
      the root block as the template means it. */
  function RenderWith(ps: seq<Piece>, c: ColorScheme): string
    decreases |ps|
  {
    if |ps| == 0 then ""
    else
      (match ps[0]
       case Lit(t) => t
       case Hole(s) => SlotValue(c, s)) + RenderWith(ps[1..], c)
  }

  /** Filling a slot with the scheme's own colour for it changes nothing in the
      intended reading. */
  lemma {:induction false} FillOwnValue(ps: seq<Piece>, slot: Slot, c: ColorScheme)
    ensures RenderWith(Fill(ps, slot, SlotValue(c, slot)), c) == RenderWith(ps, c)
    decreases |ps|
  {
    if |ps| > 0 {
      FillOwnValue(ps[1..], slot, c);
    }
  }

  /** A cut template without holes is literal at every position. */
  lemma AllLiterals(ps: seq<Piece>)
    requires forall q :: Hole(q) !in ps
    ensures forall i :: 0 <= i < |ps| ==> ps[i].Lit?
  {
    forall i | 0 <= i < |ps| ensures ps[i].Lit? {
      assert ps[i] in ps;
    }
  }

  /** Without holes, the placeholder reading and the intended one agree. */
  lemma {:induction false} RenderWithoutHoles(ps: seq<Piece>, c: ColorScheme)
    requires forall i :: 0 <= i < |ps| ==> ps[i].Lit?
    ensures Render(ps) == RenderWith(ps, c)
    decreases |ps|
  {
    if |ps| > 0 {
      var rest := ps[1..];
      assert forall i :: 0 <= i < |rest| ==> rest[i] == ps[i + 1];
      RenderWithoutHoles(rest, c);
    }
  }

  /** Safe literals without holes render to text in which no placeholder begins. */
  lemma {:induction false} RenderSafe(ps: seq<Piece>)
    requires LiteralsSafe(ps) && forall q :: Hole(q) !in ps
    ensures NoDoubleBrace(Render(ps))
    decreases |ps|
  {
    if |ps| == 0 {
    } else {
      assert ps[0] in ps;
      assert LiteralsSafe(ps[1..]) && forall q :: Hole(q) !in ps[1..] by {
        forall x | x in ps[1..] ensures x in ps {
        }
      }
      RenderSafe(ps[1..]);
      NoDoubleBraceAppend(ps[0].text, Render(ps[1..]));
    }
  }

  lemma RootHeadSafe()
    ensures NoDoubleBrace("\n    :root {\n      --hazeover-bg: ")
  {
    assert "\n    :root {\n      --hazeover-bg: " == "\n    :root " + "{\n" + "      --hazeover-bg: ";
    assert NoDoubleBrace("{\n");
    BraceFree("\n    :root ");
    BraceFree("      --hazeover-bg: ");
    NoDoubleBraceAppend("\n    :root ", "{\n");
    NoDoubleBraceAppend("\n    :root " + "{\n", "      --hazeover-bg: ");
  }

  lemma RootTailsSafe()
    ensures '{' !in " !important;\n      --hazeover-border: "
    ensures '{' !in " !important;\n      --hazeover-accent: "
    ensures '{' !in " !important;\n      --hazeover-text: "
    ensures '{' !in " !important;\n      --hazeover-sidebar: "
    ensures '{' !in " !important;\n      --hazeover-shadow: "
    ensures '{' !in " !important;\n      --hazeover-focus: "
    ensures '{' !in " !important;\n    }\n  "
  {
  }

  /** Every literal of the source's root block is safe. */
  lemma BaseCssTemplateSafe()
    ensures TemplateSafe(BaseCssTemplate)
  {
    RootHeadSafe();
    RootTailsSafe();
    forall x | x in BaseCssTemplate.root && x.Lit? ensures NoDoubleBrace(x.text) {
      if x.text != "\n    :root {\n      --hazeover-bg: " {
        BraceFree(x.text);
      }
    }
  }

  /** No colour of the scheme holds a `{`. */
  predicate ColorsBraceFree(c: ColorScheme) {
    && BraceFreeText(c.bg) && BraceFreeText(c.border) && BraceFreeText(c.accent) && BraceFreeText(c.text)
    && BraceFreeText(c.sidebar) && BraceFreeText(c.shadow) && BraceFreeText(c.focus)
  }

  predicate BraceFreeText(s: string) {
    forall i :: 0 <= i < |s| ==> s[i] != '{'
  }

  lemma SchemesBraceFree(m: Mode)
    ensures ColorsBraceFree(SchemeOf(m))
  {
    match m
    case Day => DayBraceFree();
    case Evening => EveningBraceFree();
    case Night => NightBraceFree();
  }

  lemma DayBraceFree()
    ensures ColorsBraceFree(SchemeOf(Day))
  {
    DayColorsBraceFree(SchemeOf(Day));
  }

  /** The seven colours of the day scheme hold no `{`. */
  lemma DayColorsBraceFree(c: ColorScheme)
    requires c.bg == "#F8F9FA" && c.border == "#E9ECEF" && c.accent == "#0078d4" && c.text == "#2C3E50"
    requires c.sidebar == "rgba(248, 249, 250, 0.95)" && c.shadow == "rgba(0,0,0,0.1)" && c.focus == "rgba(0, 120, 212, 0.3)"
    ensures ColorsBraceFree(c)
  {
  }

  lemma EveningBraceFree()
    ensures ColorsBraceFree(SchemeOf(Evening))
  {
    EveningColorsBraceFree(SchemeOf(Evening));
  }

  /** The seven colours of the evening scheme hold no `{`. */
  lemma EveningColorsBraceFree(c: ColorScheme)
    requires c.bg == "#FFF8F0" && c.border == "#FF8C42" && c.accent == "#E67E22" && c.text == "#8B4513"
    requires c.sidebar == "rgba(255, 140, 66, 0.15)" && c.shadow == "rgba(0,0,0,0.1)" && c.focus == "rgba(255, 140, 66, 0.4)"
    ensures ColorsBraceFree(c)
  {
  }

  lemma NightBraceFree()
    ensures ColorsBraceFree(SchemeOf(Night))
  {
    NightColorsBraceFree(SchemeOf(Night));
  }

  /** The seven colours of the night scheme hold no `{`. */
  lemma NightColorsBraceFree(c: ColorScheme)
    requires c.bg == "#1A1A2E" && c.border == "#722F37" && c.accent == "#9B59B6" && c.text == "#ECF0F1"
    requires c.sidebar == "rgba(45, 27, 105, 0.9)" && c.shadow == "rgba(0,0,0,0.3)" && c.focus == "rgba(155, 89, 182, 0.2)"
    ensures ColorsBraceFree(c)
  {
  }

  /** The pieces with the holes of `slots` filled, first slot first. */
  function FillSlots(ps: seq<Piece>, c: ColorScheme, slots: seq<Slot>): seq<Piece>
    decreases |slots|
  {
    if |slots| == 0 then ps
    else FillSlots(Fill(ps, slots[0], SlotValue(c, slots[0])), c, slots[1..])
  }

  lemma SlotValueBraceFree(c: ColorScheme, s: Slot)
    requires ColorsBraceFree(c)
    ensures NoDoubleBrace(SlotValue(c, s))
  {
  }

  /** The chained replacements fill a safe template slot by slot: the text
      is that of the filled pieces, which stay safe, keep their intended
      reading and hold no hole of a replaced slot. */
  lemma {:induction false} SubstituteFills(ps: seq<Piece>, c: ColorScheme, slots: seq<Slot>)
    requires LiteralsSafe(ps) && ColorsBraceFree(c)
    ensures Substitute(Render(ps), c, slots) == Render(FillSlots(ps, c, slots))
    ensures LiteralsSafe(FillSlots(ps, c, slots))
    ensures RenderWith(FillSlots(ps, c, slots), c) == RenderWith(ps, c)
    ensures forall q :: Hole(q) in FillSlots(ps, c, slots) ==> Hole(q) in ps && q !in slots
    decreases |slots|
  {
    if |slots| > 0 {
      var slot := slots[0];
      var v := SlotValue(c, slot);
      SlotValueBraceFree(c, slot);
      ReplaceFillsSlot(ps, slot, v);
      FillKeepsSafe(ps, slot, v);
      FillOwnValue(ps, slot, c);
      var next := Fill(ps, slot, v);
      SubstituteFills(next, c, slots[1..]);
      forall q | Hole(q) in FillSlots(ps, c, slots) ensures Hole(q) in ps && q !in slots {
        FillRemovesHoles(ps, slot, v, q);
        assert slots == [slot] + slots[1..];
      }
    }
  }

  /** Replacing the placeholders of every slot fills a safe template
      completely: the result is its intended reading, and no placeholder can
      begin anywhere in it. */
  lemma SubstituteAllSlots(ps: seq<Piece>, c: ColorScheme, slots: seq<Slot>)
    requires LiteralsSafe(ps) && ColorsBraceFree(c)
    requires forall q :: q in slots
    ensures Substitute(Render(ps), c, slots) == RenderWith(ps, c)
    ensures NoDoubleBrace(Substitute(Render(ps), c, slots))
  {
    SubstituteFills(ps, c, slots);
    var filled := FillSlots(ps, c, slots);
    AllLiterals(filled);
    RenderWithoutHoles(filled, c);
    RenderSafe(filled);
  }

  lemma SlotOrderComplete()
    ensures forall q :: q in SlotOrder
  {
    forall q ensures q in SlotOrder {
      match q
      case Bg => assert SlotOrder[0] == q;
      case Border => assert SlotOrder[1] == q;
      case Accent => assert SlotOrder[2] == q;
      case Text => assert SlotOrder[3] == q;
      case Sidebar => assert SlotOrder[4] == q;
      case Shadow => assert SlotOrder[5] == q;
      case Focus => assert SlotOrder[6] == q;
    }
  }

  /** The root block of generateThemeCSS is the template filled with the scheme. */
  lemma SubstituteRootFills(tpl: CssTemplate, c: ColorScheme)
    requires TemplateSafe(tpl) && ColorsBraceFree(c)
    ensures SubstituteRoot(tpl, c) == RenderWith(tpl.root, c)
    ensures NoDoubleBrace(SubstituteRoot(tpl, c))
  {
    SlotOrderComplete();
    SubstituteAllSlots(tpl.root, c, SlotOrder);
  }

  /** No placeholder is left in the root block, for any scheme whose colours
      hold no `{` (every shared scheme, by SchemesBraceFree). */
  lemma NoPlaceholderLeft(tpl: CssTemplate, c: ColorScheme, s: Slot)
    requires TemplateSafe(tpl) && ColorsBraceFree(c)
    ensures !Contains(SubstituteRoot(tpl, c), Placeholder(s))
  {
    var css := SubstituteRoot(tpl, c);
    var p := Placeholder(s);
    assert NoDoubleBrace(css) by {
      SubstituteRootFills(tpl, c);
    }
    assert |p| >= 2 && p[0] == '{' && p[1] == '{';
    NoDoubleBraceExcludes(css, p);
  }

  /** generateThemeCSS for a valid mode: the filled root block, the base and
      focus blocks, then the custom text when there is one. */
  lemma GeneratedCss(tpl: CssTemplate, mode: string, customSelectors: map<string, seq<string>>, customCss: string)
    requires TemplateSafe(tpl) && IsValidMode(mode)
    ensures GenerateThemeCss(tpl, mode, customSelectors, customCss) ==
            Ok(RenderWith(tpl.root, GetThemeColors(mode).value) + tpl.base + tpl.focus + customCss)
  {
    var c := GetThemeColors(mode).value;
    assert ColorsBraceFree(c) by {
      SchemesBraceFree(Parse(mode).value);
    }
    var root := SubstituteRoot(tpl, c);
    assert root == RenderWith(tpl.root, c) by {
      SubstituteRootFills(tpl, c);
    }
    AppendWhenPresent(root + tpl.base + tpl.focus, customCss);
  }

  /** The selectors passed to generateThemeCSS do not change its result. */
  lemma SelectorsIgnored(tpl: CssTemplate, mode: string, a: map<string, seq<string>>, b: map<string, seq<string>>,
                         customCss: string)
    ensures GenerateThemeCss(tpl, mode, a, customCss) == GenerateThemeCss(tpl, mode, b, customCss)
  {
  }

  /** Appending only a non-empty text is appending it. */
  lemma AppendWhenPresent(x: string, extra: string)
    ensures (if extra != "" then x + extra else x) == x + extra
  {
  }

  // ---------------------------------------------------------------------
  // Browser themes

  /** COMMON_SELECTORS. */
  const CommonSelectors: map<string, seq<string>> := map[
    "navigation" := [".toolbar", ".navigation-bar", ".nav-bar", "[class*=\"toolbar\"]", "[class*=\"navigation\"]"],
    "tabs" := [".tab", ".tab-content", "[class*=\"tab\"]:not([class*=\"tab-strip\"]):not([class*=\"tab-bar\"])"],
    "addressBar" := [".address-bar", ".url-bar", "input[type=\"url\"]", "[class*=\"address\"]", "[class*=\"url\"]",
                     ".search-field", ".omnibox"],
    "sidebar" := [".sidebar", ".panel", "[class*=\"sidebar\"]", "[class*=\"panel\"]"],
    "content" := [".main-content", ".content", ".window-content", "[class*=\"content\"]"]]

  /** What createBrowserTheme returns. */
  datatype BrowserTheme = BrowserTheme(
    mode: string, browser: string, colors: ColorScheme, css: string,
    selectors: map<string, seq<string>>, timestamp: int)

  /** `{ ...common, ...browser }`: every key of either, the browser's list
      where both have one. */
  function MergeSelectors(common: map<string, seq<string>>, browser: map<string, seq<string>>): (r: map<string, seq<string>>)
    ensures r.Keys == common.Keys + browser.Keys
    ensures forall k :: k in browser ==> r[k] == browser[k]
    ensures forall k :: k in common && k !in browser ==> r[k] == common[k]
  {
    common + browser
  }

  /** createBrowserTheme(mode, browserName, browserSelectors, customCss);
      `now` is the reading of `Date.now()`. */
  function CreateBrowserTheme(tpl: CssTemplate, mode: string, browserName: string,
                              browserSelectors: map<string, seq<string>>, customCss: string, now: int): (r: Result<BrowserTheme>)
    ensures r.Err? <==> !IsValidMode(mode)
    ensures r.Err? ==> r.message == "Invalid theme mode: " + mode
  {
    match GetThemeColors(mode)
    case None => Err("Invalid theme mode: " + mode)
    case Some(colors) =>
      var css := GenerateThemeCss(tpl, mode, browserSelectors, customCss).value;
      Ok(BrowserTheme(mode, browserName, colors, css, MergeSelectors(CommonSelectors, browserSelectors), now))
  }

  /** A browser theme carries the mode's shared scheme, the CSS generated from
      it with the custom rules last, and the common selectors overridden by
      the browser's own. */
  lemma BrowserThemeContents(tpl: CssTemplate, mode: string, browserName: string,
                             browserSelectors: map<string, seq<string>>, customCss: string, now: int)
    requires TemplateSafe(tpl) && IsValidMode(mode)
    ensures var r := CreateBrowserTheme(tpl, mode, browserName, browserSelectors, customCss, now);
            && r.Ok?
            && r.value.mode == mode && r.value.browser == browserName && r.value.timestamp == now
            && r.value.colors == SchemeOf(Parse(mode).value)
            && r.value.css == RenderWith(tpl.root, r.value.colors) + tpl.base + tpl.focus + customCss
            && r.value.selectors == MergeSelectors(CommonSelectors, browserSelectors)
  {
    GeneratedCss(tpl, mode, browserSelectors, customCss);
  }
}
