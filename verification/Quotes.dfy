/** Where a quoted text ends: behind the first quote that is neither escaped nor one of a pair. */
module Quotes {

  /** Between two bytes of the text: plain, behind a backslash, or behind a quote that may be one of a pair. */
  datatype Spot = Text | Escaped | Half

  function Move(q: char, escapes: bool, m: Spot, c: char): Spot {
    if m.Text? then (if escapes && c == '\\' then Escaped else if c == q then Half else Text) else Text
  }

  /** The spot before byte `k` of a text that starts at `j`. */
  function SpotAt(q: char, escapes: bool, s: string, j: nat, k: nat): Spot
    requires j <= k <= |s|
  {
    if k == j then Text else Move(q, escapes, SpotAt(q, escapes, s, j, k - 1), s[k - 1])
  }

  /** Byte `k - 1` is a quote that closes: it is not escaped, and no second quote follows. */
  predicate ClosesAt(q: char, escapes: bool, s: string, j: nat, k: nat)
    requires j <= k <= |s|
  {
    SpotAt(q, escapes, s, j, k).Half? && (k < |s| ==> s[k] != q)
  }

  predicate StaysOpen(q: char, escapes: bool, s: string, j: nat, hi: nat)
    requires j <= hi <= |s|
  {
    forall k :: j <= k < hi ==> !ClosesAt(q, escapes, s, j, k)
  }

  /** `r` is behind the first quote that closes, or the end if none does before it. */
  predicate IsFirstEnd(q: char, escapes: bool, s: string, j: nat, r: nat) {
    j <= r <= |s| && (r < |s| ==> ClosesAt(q, escapes, s, j, r)) && StaysOpen(q, escapes, s, j, r)
  }
}
