/** What the two readers of `{Key n}` notation share: the text between braces
    (src/commands/SendInputCommand.cpp:92-105, src/AhkParser.cpp:543-554). */
module BraceText {
  import opened Text
  import opened Decimal

  /** `{!} {+} {^} {#} {{}`: a brace that stands for its one character. */
  predicate IsEscape(body: string) {
    body == "!" || body == "+" || body == "^" || body == "#" || body == "{" || body == "}"
  }

  /** `stream >> word`: the word and what the stream still holds. */
  function ReadWord(s: string): (r: (string, string)) {
    var t := SkipSpace(s);
    var n := Run(t, c => !IsSpace(c));
    (t[..n], t[n..])
  }

  /** `stream >> n` for an int: at the end of the stream nothing is stored and `unread` remains;
      text that is no number stores 0; a number out of range stores the nearest int. */
  function ReadInt(s: string, unread: int): int {
    var t := SkipSpace(s);
    if t == "" then unread
    else
      var signed := t[0] == '-' || t[0] == '+';
      var u := if signed then t[1..] else t;
      var n := Run(u, IsDigit);
      if n == 0 then 0
      else Clamp(if t[0] == '-' then 0 - DigitsValue(u[..n]) else DigitsValue(u[..n]))
  }

  /** A brace at the front of a text: its body and what follows the first `}`. */
  datatype BraceScan = Unterminated | Closed(body: string, rest: string)

  function ScanBrace(s: string): (b: BraceScan)
    requires s != "" && s[0] == '{'
    ensures b.Closed? ==> s == "{" + b.body + "}" + b.rest && '}' !in b.body
    ensures b.Unterminated? <==> '}' !in s
  {
    var j := Find(s, '}');
    if j == |s| then Unterminated
    else
      assert s == "{" + s[1..j] + "}" + s[j + 1..];
      assert forall k :: 0 <= k < j - 1 ==> s[1..j][k] == s[k + 1];
      Closed(s[1..j], s[j + 1..])
  }

  lemma ScanBraceOf(body: string, rest: string)
    requires '}' !in body
    ensures ScanBrace("{" + (body + ("}" + rest))) == Closed(body, rest)
  {
    var s := "{" + (body + ("}" + rest));
    assert s[..|body| + 1] == "{" + body;
    FindAt(s, '}', |body| + 1);
    assert s[1..|body| + 1] == body && s[|body| + 2..] == rest;
  }

  /** `name count` reads back as the word and the int nearest to the number. */
  lemma ReadNameAndCount(name: string, count: int, unread: int)
    requires name != "" && All(name, IsWord)
    ensures var w := ReadWord(name + (" " + ToString(count)));
            w.0 == name && ReadInt(w.1, unread) == if count < -0x8000_0000 then -0x8000_0000
                                                   else if count > 0x7FFF_FFFF then 0x7FFF_FFFF else count
  {
    hide ReadWord, ReadInt, ToString;
    ReadNameFirst(name, ToString(count));
    ReadCount(count, unread);
  }

  /** A name alone leaves the count unread, and behind a name anything that starts like no number is 0. */
  lemma ReadNameOnly(name: string, c: char, tail: string, unread: int)
    requires name != "" && All(name, IsWord)
    ensures ReadWord(name).0 == name && ReadInt(ReadWord(name).1, unread) == unread
    ensures !IsSpace(c) && !IsDigit(c) && c != '-' && c != '+' ==>
              var w := ReadWord(name + (" " + ([c] + tail))); w.0 == name && ReadInt(w.1, unread) == 0
  {
    hide ReadWord, ReadInt;
    assert IsWord(name[0]);
    WordAlone(name);
    NothingRead(unread);
    ReadNameFirst(name, [c] + tail);
    if !IsSpace(c) && !IsDigit(c) && c != '-' && c != '+' {
      NoNumberRead(c, tail, unread);
    }
  }

  lemma WordAlone(name: string)
    requires name != "" && All(name, IsWord)
    ensures ReadWord(name) == (name, "")
  {
    assert IsWord(name[0]) && "" + name == name && name + "" == name;
    SkipSpaceAppend("", name);
    forall i | 0 <= i < |name| ensures !IsSpace(name[i]) { assert IsWord(name[i]); }
    RunAppend(name, "", c => !IsSpace(c));
  }

  lemma NothingRead(unread: int)
    ensures ReadInt("", unread) == unread
  {
  }

  lemma NoNumberRead(c: char, tail: string, unread: int)
    requires !IsSpace(c) && !IsDigit(c) && c != '-' && c != '+'
    ensures ReadInt(" " + ([c] + tail), unread) == 0
  {
    SkipSpaceAppend(" ", [c] + tail);
  }

  lemma ReadNameFirst(name: string, tail: string)
    requires name != "" && All(name, IsWord)
    ensures ReadWord(name + (" " + tail)) == (name, " " + tail)
  {
    var s := name + (" " + tail);
    assert IsWord(s[0]);
    assert "" + s == s;
    SkipSpaceAppend("", s);
    forall i | 0 <= i < |name| ensures !IsSpace(name[i]) { assert IsWord(name[i]); }
    RunAppend(name, " " + tail, c => !IsSpace(c));
    assert s[..|name|] == name && s[|name|..] == " " + tail;
  }

  lemma ReadCount(count: int, unread: int)
    ensures ReadInt(" " + ToString(count), unread) == if count < -0x8000_0000 then -0x8000_0000
                                                      else if count > 0x7FFF_FFFF then 0x7FFF_FFFF else count
  {
    hide Digits, Run;
    var t := ToString(count);
    var d := if count < 0 then t[1..] else t;
    DigitsRoundTrip(if count < 0 then -count else count);
    assert IsDigit(d[0]);
    assert t == if count < 0 then "-" + d else d;
    SkipSpaceAppend(" ", t);
    assert d + "" == d && d[..|d|] == d;
    RunAppend(d, "", IsDigit);
  }

  /** Where the text goes on behind a closed brace. */
  lemma BraceEnd(s: string, start: nat)
    requires start < |s| && s[start] == '{' && ScanBrace(s[start..]).Closed?
    ensures var b := ScanBrace(s[start..]);
            var next := |s| - |b.rest|;
            start < next <= |s| && b.rest == s[next..]
  {
    hide ScanBrace;
    var b := ScanBrace(s[start..]);
    assert s[start..][|b.body| + 2..] == b.rest;
    assert s[start..][|b.body| + 2..] == s[start + |b.body| + 2..];
  }
}
