/** The three theme modes and the names the source passes around as strings. */
module Modes {
  import opened Wrappers

  datatype Mode = Day | Evening | Night

  /** The string the source uses for a mode. */
  function Name(m: Mode): string {
    match m
    case Day => "day"
    case Evening => "evening"
    case Night => "night"
  }

  /** The mode a string names, if it names one. */
  function Parse(s: string): (r: Option<Mode>)
    ensures r.Some? ==> Name(r.value) == s
  {
    if s == "day" then Some(Day)
    else if s == "evening" then Some(Evening)
    else if s == "night" then Some(Night)
    else None
  }

  lemma ParseName(m: Mode)
    ensures Parse(Name(m)) == Some(m)
  {
  }

  /** The three names, in the order the source lists them. */
  const ModeNames: seq<string> := ["day", "evening", "night"]

  lemma ModeNamesAreTheModes(s: string)
    ensures s in ModeNames <==> Parse(s).Some?
  {
  }
}
