/**
  The few Python string built-ins the scraper relies on, stated over `seq<char>`:
  `str.isspace`, `str.strip`, `str.rstrip(c)`, `str.find`, `in`, `str.split(sep)`,
  `sep.join(parts)`, `str.startswith` and `str.replace(old, "")`.
 */
module Text {
  import opened Wrappers

  /** The characters for which Python's `str.isspace()` holds: those `str.strip()`
      removes and the regular-expression class `\s` matches. */
  predicate IsSpace(c: char)
  {
    || c == ' '
    || ('\t' <= c <= '\r')
    || ('\U{1C}' <= c <= '\U{1F}')
    || c == '\U{85}' || c == '\U{A0}' || c == '\U{1680}'
    || ('\U{2000}' <= c <= '\U{200A}')
    || c == '\U{2028}' || c == '\U{2029}' || c == '\U{202F}' || c == '\U{205F}' || c == '\U{3000}'
  }

  predicate NoSpace(s: string)
  {
    forall k :: 0 <= k < |s| ==> !IsSpace(s[k])
  }

  /** A non-empty run of whitespace: what `\s+` matches. */
  predicate SpaceRun(s: string)
  {
    s != [] && forall k :: 0 <= k < |s| ==> IsSpace(s[k])
  }

  /** `s.lstrip()`: the suffix of `s` left after removing its leading whitespace. */
  function TrimStart(s: string): (r: string)
    ensures |r| <= |s| && r == s[|s| - |r|..]
    ensures r == [] || !IsSpace(r[0])
    ensures forall k :: 0 <= k < |s| - |r| ==> IsSpace(s[k])
  {
    if s != [] && IsSpace(s[0]) then
      var r := TrimStart(s[1..]);
      assert forall k :: 1 <= k < |s| ==> s[k] == s[1..][k - 1];
      r
    else s
  }

  /** `s.rstrip()`: the prefix of `s` left after removing its trailing whitespace. */
  function TrimEnd(s: string): (r: string)
    ensures |r| <= |s| && r == s[..|r|]
    ensures r == [] || !IsSpace(r[|r| - 1])
    ensures forall k :: |r| <= k < |s| ==> IsSpace(s[k])
  {
    if s != [] && IsSpace(s[|s| - 1]) then
      var r := TrimEnd(s[..|s| - 1]);
      assert forall k :: 0 <= k < |s| - 1 ==> s[k] == s[..|s| - 1][k];
      r
    else s
  }

  /** `r` is the infix of `s` starting at `i`, with only whitespace around it. */
  predicate StrippedAt(s: string, r: string, i: int)
  {
    && 0 <= i <= |s| - |r| && r == s[i..i + |r|]
    && (forall k :: 0 <= k < i ==> IsSpace(s[k]))
    && (forall k :: i + |r| <= k < |s| ==> IsSpace(s[k]))
  }

  /** `s.strip()`: the infix of `s` that neither starts nor ends with whitespace and
      outside of which there is only whitespace. */
  function Strip(s: string): (r: string)
    ensures r == [] || (!IsSpace(r[0]) && !IsSpace(r[|r| - 1]))
    ensures exists i :: StrippedAt(s, r, i)
  {
    var t := TrimStart(s);
    var r := TrimEnd(t);
    StripParts(s, t, r);
    r
  }

  lemma StripParts(s: string, t: string, r: string)
    requires |t| <= |s| && t == s[|s| - |t|..]
    requires forall k :: 0 <= k < |s| - |t| ==> IsSpace(s[k])
    requires |r| <= |t| && r == t[..|r|]
    requires forall k :: |r| <= k < |t| ==> IsSpace(t[k])
    ensures StrippedAt(s, r, |s| - |t|)
  {
    var i := |s| - |t|;
    assert r == s[i..i + |r|];
    forall k | i + |r| <= k < |s|
      ensures IsSpace(s[k])
    {
      assert s[k] == t[k - i];
    }
  }

  /** `s.rstrip(c)`: `s` without any run of `c` at its end. */
  function RStripChar(s: string, c: char): (r: string)
    ensures |r| <= |s| && r == s[..|r|]
    ensures r == [] || r[|r| - 1] != c
    ensures forall k :: |r| <= k < |s| ==> s[k] == c
  {
    if s != [] && s[|s| - 1] == c then RStripChar(s[..|s| - 1], c) else s
  }

  predicate StartsWith(s: string, prefix: string)
  {
    |prefix| <= |s| && s[..|prefix|] == prefix
  }

  /** `sub` occurs in `s` at position `i`. */
  predicate OccursAt(s: string, sub: string, i: nat)
  {
    i + |sub| <= |s| && s[i..i + |sub|] == sub
  }

  /** `s.find(sub, start)`: the first position at or after `start` where `sub` occurs. */
  function IndexFrom(s: string, sub: string, start: nat): (r: Option<nat>)
    ensures r.Some? ==> start <= r.value && OccursAt(s, sub, r.value)
    ensures r.Some? ==> forall j :: start <= j < r.value ==> !OccursAt(s, sub, j)
    ensures r.None? ==> forall j :: start <= j ==> !OccursAt(s, sub, j)
    decreases |s| - start
  {
    if start + |sub| > |s| then None
    else if s[start..start + |sub|] == sub then Some(start)
    else IndexFrom(s, sub, start + 1)
  }

  /** Python's `sub in s`. */
  predicate Contains(s: string, sub: string)
  {
    IndexFrom(s, sub, 0).Some?
  }

  lemma ContainsAt(s: string, sub: string, i: nat)
    requires OccursAt(s, sub, i)
    ensures Contains(s, sub)
  {
  }

  /** The search finds exactly the first occurrence. */
  lemma IndexFromFirst(s: string, sub: string, i: nat)
    requires OccursAt(s, sub, i)
    requires forall j :: 0 <= j < i ==> !OccursAt(s, sub, j)
    ensures IndexFrom(s, sub, 0) == Some(i)
  {
  }

  /** `sep.join(parts)`. */
  function Join(parts: seq<string>, sep: string): string
  {
    if |parts| == 0 then ""
    else if |parts| == 1 then parts[0]
    else parts[0] + sep + Join(parts[1..], sep)
  }

  /** A prefix of `s` that ends before a known occurrence of `sub` in `s` does not contain `sub`. */
  lemma NoOccurrenceInPrefix(s: string, sub: string, i: nat)
    requires sub != [] && i <= |s|
    requires forall j :: 0 <= j < i ==> !OccursAt(s, sub, j)
    ensures !Contains(s[..i], sub)
  {
    var p := s[..i];
    if Contains(p, sub) {
      var j := IndexFrom(p, sub, 0).value;
      assert p[j..j + |sub|] == s[j..j + |sub|];
      assert OccursAt(s, sub, j);
      assert false;
    }
  }

  /** `s.split(sep)` for a non-empty separator: the pieces between the occurrences of
      `sep` found left to right. Joining them back with `sep` gives `s`, and no piece
      contains `sep`. The contract fixes only the first piece as cut at the leftmost
      occurrence; for a separator that cannot overlap itself (every one the scraper uses:
      "/", "?", "trading as") the join and no-piece clauses then fix all the pieces. */
  function Split(s: string, sep: string): (parts: seq<string>)
    requires sep != []
    ensures |parts| >= 1
    ensures Join(parts, sep) == s
    ensures forall k :: 0 <= k < |parts| ==> !Contains(parts[k], sep)
    ensures IndexFrom(s, sep, 0).None? ==> parts == [s]
    ensures IndexFrom(s, sep, 0).Some? ==> parts[0] == s[..IndexFrom(s, sep, 0).value]
    decreases |s|
  {
    match IndexFrom(s, sep, 0)
    case None => [s]
    case Some(i) =>
      NoOccurrenceInPrefix(s, sep, i);
      var rest := Split(s[i + |sep|..], sep);
      var parts := [s[..i]] + rest;
      assert parts[1..] == rest;
      PiecesAround(s, i, i + |sep|);
      assert Join(parts, sep) == s[..i] + sep + s[i + |sep|..];
      parts
  }

  /** Cutting `s` at two positions and gluing the three pieces back gives `s`. */
  lemma PiecesAround(s: string, i: int, j: int)
    requires 0 <= i <= j <= |s|
    ensures s[..i] + s[i..j] + s[j..] == s
  {
  }

  /** `s.split(sep)` has a single piece exactly when `sep` does not occur in `s`. */
  lemma SplitSingle(s: string, sep: string)
    requires sep != []
    ensures |Split(s, sep)| == 1 <==> !Contains(s, sep)
  {
    match IndexFrom(s, sep, 0)
    case None =>
    case Some(i) =>
  }

  /** Splitting on a one-character separator peels off the text before it. */
  lemma SplitCons(a: string, sep: string, rest: string)
    requires |sep| == 1
    requires forall k :: 0 <= k < |a| ==> a[k] != sep[0]
    ensures Split(a + sep + rest, sep) == [a] + Split(rest, sep)
  {
    var s := a + sep + rest;
    assert OccursAt(s, sep, |a|) by { assert s[|a|..|a| + 1] == sep; }
    forall j | 0 <= j < |a| ensures !OccursAt(s, sep, j) {
      assert s[j] == a[j];
    }
    IndexFromFirst(s, sep, |a|);
    assert s[..|a|] == a;
    assert s[|a| + 1..] == rest;
  }

  /** A one-character separator that does not occur leaves the text whole. */
  lemma SplitNone(a: string, sep: string)
    requires |sep| == 1
    requires forall k :: 0 <= k < |a| ==> a[k] != sep[0]
    ensures Split(a, sep) == [a]
  {
    forall j | 0 <= j ensures !OccursAt(a, sep, j) {
      if j < |a| { assert a[j] != sep[0]; }
    }
  }

  /** `s.replace(pat, "")`: every occurrence of `pat`, found left to right, removed. */
  function RemoveAll(s: string, pat: string): (r: string)
    requires pat != []
    ensures !Contains(s, pat) ==> r == s
  {
    SplitSingle(s, pat);
    Join(Split(s, pat), "")
  }

  predicate IsAsciiUpper(c: char)
  {
    'A' <= c <= 'Z'
  }

  function LowerChar(c: char): (r: char)
  {
    if IsAsciiUpper(c) then (c as int - 'A' as int + 'a' as int) as char else c
  }

  /** Lower-cases the ASCII letters of `s` and keeps every other character. */
  function LowerAscii(s: string): (r: string)
    ensures |r| == |s|
    ensures forall k :: 0 <= k < |s| ==> r[k] == LowerChar(s[k])
  {
    seq(|s|, k requires 0 <= k < |s| => LowerChar(s[k]))
  }

  predicate IsDigit(c: char)
  {
    '0' <= c <= '9'
  }

  function DigitValue(c: char): (v: nat)
    requires IsDigit(c)
    ensures v < 10
  {
    c as int - '0' as int
  }

  function DigitChar(v: nat): (c: char)
    requires v < 10
    ensures IsDigit(c) && DigitValue(c) == v
  {
    ('0' as int + v) as char
  }
}
