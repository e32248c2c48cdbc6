/**
 The protected regions of a PostgreSQL statement: quoted strings, quoted identifiers and dollar
 quotes. Each function measures the region at the head of a text; each method is the source's
 index loop over the whole statement.
 */
module PgRegions {
  import opened Text
  import opened Quotes

  /** Length of the rest of a quoted region, after its opening quote; a doubled quote is escaped. */
  function InnerLen(t: string, q: char): (n: nat)
    ensures n <= |t|
  {
    if t == "" then 0
    else if t[0] == q then
      if |t| > 1 && t[1] == q then 2 + InnerLen(t[2..], q) else 1
    else 1 + InnerLen(t[1..], q)
  }

  /** The first byte of the inside of a quoted region, and what is left of it. */
  lemma InnerHead(q: char, t: string)
    requires t != ""
    ensures var n := InnerLen(t, q);
            && n > 0 && t[..n][0] == t[0]
            && (t[0] != q ==> t[..n][1..] == t[1..][..InnerLen(t[1..], q)])
            && (t[0] == q && |t| > 1 && t[1] == q ==> n >= 2 && t[..n][1] == q && t[..n][2..] == t[2..][..InnerLen(t[2..], q)])
            && (t[0] == q && !(|t| > 1 && t[1] == q) ==> t[..n] == [q])
  {
  }

  function QuotedLen(t: string, q: char): (n: nat)
    requires t != ""
    ensures 0 < n <= |t|
  {
    1 + InnerLen(t[1..], q)
  }

  function IdentLen(t: string): (n: nat)
    ensures n <= |t|
  {
    if t != "" && IsIdentByte(t[0]) then 1 + IdentLen(t[1..]) else 0
  }

  /** Length of the opening `$tag$`, or 0. */
  function TagLen(t: string): (n: nat)
    ensures n <= |t| && (n > 0 ==> n >= 2 && t[0] == '$' && t[n - 1] == '$')
  {
    if t == "" || t[0] != '$' then 0
    else
      var m := IdentLen(t[1..]);
      if 1 + m < |t| && t[1 + m] == '$' then m + 2 else 0
  }

  /** `strings.Index`. */
  function Find(t: string, d: string): (r: Option<nat>)
    ensures r.Some? ==> r.value + |d| <= |t|
  {
    if d <= t then Some(0)
    else if t == "" then None
    else
      var r := Find(t[1..], d);
      if r.None? then None else Some(r.value + 1)
  }

  /** Length of a dollar quote whose opening tag has length `n`. */
  function DollarLen(t: string, n: nat): (r: nat)
    requires n <= |t|
    ensures n <= r <= |t|
  {
    var idx := Find(t[n..], t[..n]);
    if idx.None? then |t| else n + idx.value + n
  }

  /** Length of the protected region at the head of `t`, 0 if there is none. */
  function RegionLen(t: string): (n: nat)
    ensures n <= |t|
  {
    if t == "" then 0
    else if t[0] == '\'' then QuotedLen(t, '\'')
    else if t[0] == '"' then QuotedLen(t, '"')
    else if TagLen(t) > 0 then DollarLen(t, TagLen(t))
    else 0
  }

  /** skipSingleQuoted and skipDoubleQuoted. */
  method SkipQuoted(s: string, i: nat, q: char) returns (j: nat)
    requires i < |s|
    ensures i < j <= |s| && j == i + QuotedLen(s[i..], q) && IsFirstEnd(q, false, s, i + 1, j)
  {
    assert s[i..][1..] == s[i + 1..];
    j := i + 1;
    while j < |s|
      invariant i < j <= |s|
      invariant j + InnerLen(s[j..], q) == i + QuotedLen(s[i..], q)
      invariant SpotAt(q, false, s, i + 1, j) == Spot.Text && StaysOpen(q, false, s, i + 1, j)
    {
      assert s[j..][1..] == s[j + 1..];
      if s[j] == q {
        assert SpotAt(q, false, s, i + 1, j + 1) == Half;
        if j + 1 < |s| && s[j + 1] == q {
          assert s[j..][2..] == s[j + 2..];
          j := j + 2;
          continue;
        }
        return j + 1;
      }
      j := j + 1;
    }
    return |s|;
  }

  /** The identifier loops of dollarQuoteTag and replaceKeywords. */
  method SkipIdent(s: string, i: nat) returns (j: nat)
    requires i <= |s|
    ensures i <= j <= |s| && j == i + IdentLen(s[i..])
  {
    j := i;
    while j < |s| && IsIdentByte(s[j])
      invariant i <= j <= |s| && j + IdentLen(s[j..]) == i + IdentLen(s[i..])
    {
      assert s[j..][1..] == s[j + 1..];
      j := j + 1;
    }
  }

  /** dollarQuoteTag: whether `$tag$` stands at `i`, and where it ends. */
  method DollarQuoteTag(s: string, i: nat) returns (tag: string, end: nat, ok: bool)
    requires i < |s|
    ensures ok == (TagLen(s[i..]) > 0)
    ensures ok ==> end == i + TagLen(s[i..]) <= |s| && "$" + tag + "$" == s[i..end]
  {
    tag, end, ok := "", i, false;
    if s[i] != '$' {
      return;
    }
    assert s[i..][1..] == s[i + 1..];
    var j := SkipIdent(s, i + 1);
    if j < |s| && s[j] == '$' {
      return s[i + 1..j], j + 1, true;
    }
  }

  /** findDollarQuoteEnd. */
  function FindDollarQuoteEnd(s: string, from: nat, tag: string): (end: nat)
    requires from <= |s|
    ensures from <= end <= |s|
  {
    var delim := "$" + tag + "$";
    var idx := Find(s[from..], delim);
    if idx.None? then |s| else from + idx.value + |delim|
  }

  /** Skips the protected region at `i`, if there is one: the cases both scanners share. */
  method SkipRegion(s: string, i: nat) returns (j: nat)
    requires i < |s|
    ensures i <= j <= |s| && j == i + RegionLen(s[i..])
  {
    if s[i] == '\'' || s[i] == '"' {
      j := SkipQuoted(s, i, s[i]);
      return;
    }
    j := i;
    if s[i] == '$' {
      var tag, end, ok := DollarQuoteTag(s, i);
      if ok {
        j := FindDollarQuoteEnd(s, end, tag);
        var t, n := s[i..], TagLen(s[i..]);
        assert t[n..] == s[end..] && t[..n] == s[i..end];
      }
    }
  }
}
