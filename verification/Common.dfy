/** What several modules share. */
module Common {
  datatype Option<T> = None | Some(value: T)

  /** isspace in the "C" locale. */
  predicate IsSpace(c: char) { c == ' ' || '\t' <= c <= '\r' }

  function LeftTrimmed(s: string): string { if s != "" && IsSpace(s[0]) then LeftTrimmed(s[1..]) else s }

  function RightTrimmed(s: string): string {
    if s != "" && IsSpace(s[|s| - 1]) then RightTrimmed(s[..|s| - 1]) else s
  }

  function Trimmed(s: string): string { RightTrimmed(LeftTrimmed(s)) }

  function Min(a: int, b: int): int { if a < b then a else b }

  function Max(a: int, b: int): int { if a > b then a else b }
}
