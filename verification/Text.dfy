/** Byte strings, character classes of the "C" locale, searching and trimming
    (src/StringUtil.cpp).  Every `char` of a `string` stands for one byte. */
module Text {

  /** `std::isspace`, and the class `\s` of `std::regex`: space and the bytes 9 to 13. */
  predicate IsSpace(c: char) { c == ' ' || '\t' <= c <= '\r' }

  predicate IsDigit(c: char) { '0' <= c <= '9' }

  predicate IsWordStart(c: char) { 'a' <= c <= 'z' || 'A' <= c <= 'Z' || c == '_' }

  predicate IsWord(c: char) { IsWordStart(c) || IsDigit(c) }

  /** What `trim` removes in front, and what it removes at the end. */
  predicate IsBlank(c: char) { c == ' ' || c == '\t' }

  predicate IsTrailing(c: char) { IsBlank(c) || c == '\r' || c == '\n' }

  ghost predicate All(s: string, p: char -> bool) { forall i :: 0 <= i < |s| ==> p(s[i]) }

  /** True when `s` is empty or its first byte does not satisfy `p`. */
  ghost predicate StopsAt(s: string, p: char -> bool) { s == "" || !p(s[0]) }

  /** `r` is what is left of `s` after a prefix was consumed. */
  ghost predicate IsSuffix(r: string, s: string) { |r| <= |s| && r == s[|s| - |r|..] }

  lemma SuffixTransitive(a: string, b: string, c: string)
    requires IsSuffix(a, b) && IsSuffix(b, c)
    ensures IsSuffix(a, c)
  {
    assert b[|b| - |a|..] == c[|c| - |a|..];
  }

  /** `find(c)`: the first position of `c`, or `|s|` for `npos`. */
  function Find(s: string, c: char): (i: nat)
    ensures i <= |s|
    ensures forall k :: 0 <= k < i ==> s[k] != c
    ensures i < |s| ==> s[i] == c
  {
    if s == "" || s[0] == c then 0 else 1 + Find(s[1..], c)
  }

  /** `rfind(c)`: the last position of `c`, or `|s|` for `npos`. */
  function RFind(s: string, c: char): (i: nat)
    ensures i <= |s|
    ensures i < |s| ==> s[i] == c && forall k :: i < k < |s| ==> s[k] != c
    ensures i == |s| ==> c !in s
  {
    if s == "" then 0
    else if s[|s| - 1] == c then |s| - 1
    else
      var i := RFind(s[..|s| - 1], c);
      if i == |s| - 1 then |s| else i
  }

  lemma FindAt(s: string, c: char, i: nat)
    requires i < |s| && s[i] == c && c !in s[..i]
    ensures Find(s, c) == i
  {
  }

  /** How many leading bytes satisfy `p`. */
  function Run(s: string, p: char -> bool): (n: nat)
    ensures n <= |s|
    ensures All(s[..n], p) && StopsAt(s[n..], p)
  {
    if s == "" || !p(s[0]) then 0
    else
      var n := Run(s[1..], p);
      assert s[..n + 1] == [s[0]] + s[1..][..n];
      n + 1
  }

  lemma {:induction false} RunAppend(a: string, b: string, p: char -> bool)
    requires All(a, p) && StopsAt(b, p)
    ensures Run(a + b, p) == |a|
  {
    if a == "" {
      assert a + b == b;
    } else {
      assert (a + b)[1..] == a[1..] + b;
      assert (a + b)[0] == a[0];
      RunAppend(a[1..], b, p);
    }
  }

  /** What follows the leading white space: the effect of `\s*`. */
  function SkipSpace(s: string): (r: string)
    ensures IsSuffix(r, s) && StopsAt(r, IsSpace)
  {
    s[Run(s, IsSpace)..]
  }

  /** The white space that `\s*` skipped at the front of `s`. */
  ghost function Skipped(s: string): (w: string)
    ensures All(w, IsSpace) && s == w + SkipSpace(s)
  {
    s[..Run(s, IsSpace)]
  }

  lemma SkipSpaceAppend(w: string, s: string)
    requires All(w, IsSpace) && StopsAt(s, IsSpace)
    ensures SkipSpace(w + s) == s
  {
    RunAppend(w, s, IsSpace);
  }

  // ---- trim --------------------------------------------------------------

  function TrimEnd(s: string): string
  {
    if s != "" && IsTrailing(s[|s| - 1]) then TrimEnd(s[..|s| - 1]) else s
  }

  function TrimStart(s: string): string
  {
    if s != "" && IsBlank(s[0]) then TrimStart(s[1..]) else s
  }

  function Trim(s: string): string { TrimStart(TrimEnd(s)) }

  /** A string that `trim` would leave alone. */
  predicate Trimmed(s: string)
  {
    s != "" ==> !IsBlank(s[0]) && !IsTrailing(s[|s| - 1])
  }

  lemma {:induction false} TrimEndAppend(s: string, trail: string)
    requires All(trail, IsTrailing)
    ensures TrimEnd(s + trail) == TrimEnd(s)
    decreases |trail|
  {
    if trail == "" {
      assert s + trail == s;
    } else {
      var t := s + trail;
      assert t[..|t| - 1] == s + trail[..|trail| - 1];
      assert t[|t| - 1] == trail[|trail| - 1];
      TrimEndAppend(s, trail[..|trail| - 1]);
    }
  }

  lemma {:induction false} TrimStartPrepend(lead: string, s: string)
    requires All(lead, IsBlank)
    ensures TrimStart(lead + s) == TrimStart(s)
  {
    if lead == "" {
      assert lead + s == s;
    } else {
      assert (lead + s)[1..] == lead[1..] + s;
      assert (lead + s)[0] == lead[0];
      TrimStartPrepend(lead[1..], s);
    }
  }

  /** `trim` finds exactly the trimmed core between blanks and trailing bytes. */
  lemma TrimDecorated(lead: string, core: string, trail: string)
    requires All(lead, IsBlank) && All(trail, IsTrailing) && Trimmed(core)
    ensures Trim(lead + core + trail) == core
  {
    TrimEndAppend(lead + core, trail);
    if core == "" {
      assert lead + core == "" + lead;
      TrimEndAppend("", lead);
    } else {
      assert (lead + core)[|lead + core| - 1] == core[|core| - 1];
      TrimStartPrepend(lead, core);
    }
  }

  /** Conversely, every string is its trim between blanks and trailing bytes. */
  lemma {:induction false} TrimDecomposes(s: string) returns (lead: string, trail: string)
    ensures s == lead + Trim(s) + trail
    ensures All(lead, IsBlank) && All(trail, IsTrailing) && Trimmed(Trim(s))
  {
    var e := TrimEnd(s);
    trail := TrimEndSplits(s);
    lead := TrimStartSplits(e);
  }

  lemma {:induction false} TrimEndSplits(s: string) returns (trail: string)
    ensures s == TrimEnd(s) + trail && All(trail, IsTrailing)
    ensures TrimEnd(s) != "" ==> !IsTrailing(TrimEnd(s)[|TrimEnd(s)| - 1])
  {
    if s != "" && IsTrailing(s[|s| - 1]) {
      var t := TrimEndSplits(s[..|s| - 1]);
      trail := t + [s[|s| - 1]];
    } else {
      trail := "";
    }
  }

  lemma {:induction false} TrimStartSplits(s: string) returns (lead: string)
    ensures s == lead + TrimStart(s) && All(lead, IsBlank)
    ensures TrimStart(s) != "" ==> !IsBlank(TrimStart(s)[0])
  {
    if s != "" && IsBlank(s[0]) {
      var t := TrimStartSplits(s[1..]);
      lead := [s[0]] + t;
    } else {
      lead := "";
    }
  }

  lemma {:induction false} TrimEndKeepsFirst(s: string)
    requires s != "" && !IsTrailing(s[0])
    ensures TrimEnd(s) != "" && TrimEnd(s)[0] == s[0]
  {
    if IsTrailing(s[|s| - 1]) {
      TrimEndKeepsFirst(s[..|s| - 1]);
    }
  }

  lemma TrimIsTrimmed(s: string)
    ensures Trimmed(Trim(s)) && |Trim(s)| <= |s|
  {
    var lead, trail := TrimDecomposes(s);
  }

  lemma TrimOfTrimmed(s: string)
    requires Trimmed(s)
    ensures Trim(s) == s
  {
    assert "" + s + "" == s;
    TrimDecorated("", s, "");
  }

  /** The two loops of `trim`. */
  method TrimText(s: string) returns (r: string)
    ensures r == Trim(s)
  {
    var t := s;
    while t != "" && IsTrailing(t[|t| - 1])
      invariant TrimEnd(t) == TrimEnd(s)
      decreases |t|
    {
      t := t[..|t| - 1];
    }
    var start := 0;
    while start < |t| && IsBlank(t[start])
      invariant 0 <= start <= |t|
      invariant TrimStart(t[start..]) == TrimStart(t)
    {
      assert t[start..][1..] == t[start + 1..];
      start := start + 1;
    }
    r := t[start..];
  }
}
