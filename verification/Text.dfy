/** Trimming strings; what counts as space differs between languages. */
module Text {

  function TrimStart(space: char -> bool, s: string): string
    decreases |s|
  {
    if s != [] && space(s[0]) then TrimStart(space, s[1..]) else s
  }

  function TrimEnd(space: char -> bool, s: string): string
    decreases |s|
  {
    if s != [] && space(s[|s| - 1]) then TrimEnd(space, s[..|s| - 1]) else s
  }
}
