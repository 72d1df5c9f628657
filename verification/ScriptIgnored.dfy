/** Which lines of a block are commands, and that every other line can be left out
    (src/commands/ScriptParser.cpp:234-429). */
module ScriptIgnored {
  import opened Wrappers
  import opened Text
  import opened ScriptLines
  import opened ScriptLayout
  import opened ScriptParser
  import ScriptRoundTrip

  // ---- what a line is, said of its text -----------------------------------------------

  /** The line is the word, or the word and a space, comma, parenthesis or brace come first. */
  ghost predicate HasWord(line: string, word: string) {
    word <= line
    && (|line| > |word| ==>
          var c := line[|word|]; c == ' ' || 9 <= c as int <= 13 || c == ',' || c == '(' || c == '{')
  }

  const SIMPLE_WORDS: seq<string> := [
    "sendinput", "sleep", "random", "showmarkdown", "cancel", "pause", "sendmessage", "input", "return"
  ]

  ghost predicate NoWord(line: string) { forall w :: w in SIMPLE_WORDS ==> !HasWord(line, w) }

  /** `name++` between white space. */
  ghost predicate Counts(line: string, name: string) {
    && name != "" && IsWordStart(name[0]) && All(name, IsWord)
    && exists lead, trail :: All(lead, IsSpace) && All(trail, IsSpace) && line == lead + (name + ("++" + trail))
  }

  /** A line of the three words without a meaning, or of no word at all. */
  ghost predicate Ignored(line: string) {
    || HasWord(line, "sendmessage") || HasWord(line, "input") || HasWord(line, "return")
    || (NoWord(line) && !exists name :: Counts(line, name))
  }

  lemma HasWordIsStart(line: string, word: string)
    ensures HasWord(line, word) <==> StartsWithCommand(line, word)
  {
    if |line| > |word| {
      assert line[|word|..][0] == line[|word|];
    }
  }

  lemma NoWordIs(line: string)
    ensures NoWord(line) <==>
              !HasWord(line, "sendinput") && !HasWord(line, "sleep") && !HasWord(line, "random")
              && !HasWord(line, "showmarkdown") && !HasWord(line, "cancel") && !HasWord(line, "pause")
              && !HasWord(line, "sendmessage") && !HasWord(line, "input") && !HasWord(line, "return")
  {
    hide HasWord;
    var w := SIMPLE_WORDS;
    assert w[0] == "sendinput" && w[1] == "sleep" && w[2] == "random" && w[3] == "showmarkdown" && w[4] == "cancel";
    assert w[5] == "pause" && w[6] == "sendmessage" && w[7] == "input" && w[8] == "return";
  }

  /** The words exclude each other. */
  lemma OneWord(line: string, a: nat, b: nat)
    requires a < b < |SIMPLE_WORDS| && HasWord(line, SIMPLE_WORDS[a])
    ensures !HasWord(line, SIMPLE_WORDS[b])
  {
    var v, w := SIMPLE_WORDS[a], SIMPLE_WORDS[b];
    if HasWord(line, w) {
      SameLetters(line, v, w);
      WordsDiffer(a, b);
    }
  }

  lemma SameLetters(line: string, v: string, w: string)
    requires v <= line && w <= line
    ensures forall i :: 0 <= i < |v| && i < |w| ==> v[i] == w[i]
  {
  }

  /** Two of the words differ at one of these letters. */
  lemma WordsDiffer(a: nat, b: nat)
    requires a < b < |SIMPLE_WORDS|
    ensures var v, w := SIMPLE_WORDS[a], SIMPLE_WORDS[b]; v[0] != w[0] || v[1] != w[1] || v[4] != w[4]
  {
  }

  lemma CountsIsIncrement(line: string, name: string)
    ensures Counts(line, name) <==> IncrementName(line) == Some(name)
  {
    hide Counts, IncrementName;
    if Counts(line, name) {
      CountsIsRead(line, name);
    }
    if IncrementName(line) == Some(name) {
      IncrementIsWritten(line, name);
    }
  }

  lemma CountsIsRead(line: string, name: string)
    requires Counts(line, name)
    ensures IncrementName(line) == Some(name)
  {
    hide SkipSpace, Run, IsSpace, IsWordStart;
    var lead, trail :| All(lead, IsSpace) && All(trail, IsSpace) && line == lead + (name + ("++" + trail));
    var s := name + ("++" + trail);
    PlusIsNoWord();
    assert IsWord(s[0]) && s[0] == name[0];
    SkipSpaceAppend(lead, s);
    RunAppend(name, "++" + trail, IsWord);
    assert s[..|name|] == name && s[|name| + 2..] == trail && s[|name|] == '+' && s[|name| + 1] == '+';
    SkipSpaceAppend(trail, "");
    assert trail + "" == trail;
  }

  lemma PlusIsNoWord()
    ensures !IsWord('+') && forall c :: IsWord(c) ==> !IsSpace(c)
  {
  }

  lemma IncrementIsWritten(line: string, name: string)
    requires IncrementName(line) == Some(name)
    ensures Counts(line, name)
  {
    hide SkipSpace, Run, Skipped, IsSpace, IsWordStart, IsWord;
    var s := SkipSpace(line);
    var n := IdentifierLength(s);
    var trail := s[n + 2..];
    assert name == s[..n] && name[0] == s[0];
    assert trail == Skipped(trail) + "" == Skipped(trail);
    assert s == name + ("++" + trail);
    assert line == Skipped(line) + (name + ("++" + trail));
  }

  lemma NotACommand(tail: string)
    ensures ParseSend(tail) != Ok(None) && ParseSend(tail) != Ok(Some(Cancel))
    ensures ParseSleep(tail) != Ok(None) && ParseSleep(tail) != Ok(Some(Cancel))
    ensures ParseRandom(tail) != Ok(None) && ParseRandom(tail) != Ok(Some(Cancel))
    ensures ParseMarkdown(tail) != Ok(None) && ParseMarkdown(tail) != Ok(Some(Cancel))
    ensures forall name :: ParseSend(tail) != Ok(Some(Increment(name))) && ParseSleep(tail) != Ok(Some(Increment(name)))
    ensures forall name :: ParseRandom(tail) != Ok(Some(Increment(name))) && ParseMarkdown(tail) != Ok(Some(Increment(name)))
  {
    hide Arguments, Stoi, RandomArguments, SendInput.Parse;
  }

  lemma CancelWord(line: string)
    requires HasWord(line, "cancel") || HasWord(line, "pause")
    ensures !HasWord(line, "sendinput") && !HasWord(line, "sleep") && !HasWord(line, "random")
    ensures !HasWord(line, "sendmessage") && !HasWord(line, "input") && !HasWord(line, "return")
  {
    hide HasWord;
    var w := SIMPLE_WORDS;
    assert w[0] == "sendinput" && w[1] == "sleep" && w[2] == "random" && w[4] == "cancel" && w[5] == "pause";
    assert w[6] == "sendmessage" && w[7] == "input" && w[8] == "return";
    var k := if HasWord(line, "cancel") then 4 else 5;
    forall i | 0 <= i < 9 && i != 4 && i != 5
      ensures !HasWord(line, w[i])
    {
      if HasWord(line, w[i]) {
        if i < k {
          OneWord(line, i, k);
        } else {
          OneWord(line, k, i);
        }
      }
    }
  }

  lemma IgnoredWord(line: string)
    requires HasWord(line, "sendmessage") || HasWord(line, "input") || HasWord(line, "return")
    ensures !HasWord(line, "sendinput") && !HasWord(line, "sleep") && !HasWord(line, "random")
  {
    hide HasWord;
    var w := SIMPLE_WORDS;
    assert w[0] == "sendinput" && w[1] == "sleep" && w[2] == "random";
    assert w[6] == "sendmessage" && w[7] == "input" && w[8] == "return";
    var k := if HasWord(line, "sendmessage") then 6 else if HasWord(line, "input") then 7 else 8;
    forall i | 0 <= i < 3
      ensures !HasWord(line, w[i])
    {
      if HasWord(line, w[i]) {
        OneWord(line, i, k);
      }
    }
  }

  /** A line is passed over exactly when it is ignored; it interrupts exactly when its word is `cancel` or
      `pause`; it counts exactly when it is `name++` without a word. */
  lemma LineMeans(line: string)
    ensures SimpleCommand(line) == Ok(None) <==> Ignored(line)
    ensures SimpleCommand(line) == Ok(Some(Cancel)) <==> HasWord(line, "cancel") || HasWord(line, "pause")
    ensures forall name :: SimpleCommand(line) == Ok(Some(Increment(name))) <==> NoWord(line) && Counts(line, name)
  {
    hide HasWord, StartsWithCommand, ParseSend, ParseSleep, ParseRandom, ParseMarkdown, IncrementName, Counts, NoWord;
    NoWordIs(line);
    forall w: string ensures HasWord(line, w) <==> StartsWithCommand(line, w) { HasWordIsStart(line, w); }
    forall name ensures Counts(line, name) <==> IncrementName(line) == Some(name) { CountsIsIncrement(line, name); }
    assert (exists name :: Counts(line, name)) <==> IncrementName(line).Some? by {
      if IncrementName(line).Some? {
        assert Counts(line, IncrementName(line).value);
      }
    }
    if HasWord(line, "cancel") || HasWord(line, "pause") {
      CancelWord(line);
    } else if HasWord(line, "sendmessage") || HasWord(line, "input") || HasWord(line, "return") {
      IgnoredWord(line);
    } else if HasWord(line, "sendinput") {
      WordLength(line, "sendinput");
      NotACommand(line[9..]);
    } else if HasWord(line, "sleep") {
      WordLength(line, "sleep");
      NotACommand(line[5..]);
    } else if HasWord(line, "random") {
      WordLength(line, "random");
      NotACommand(line[6..]);
    } else if HasWord(line, "showmarkdown") {
      WordLength(line, "showmarkdown");
      NotACommand(line[12..]);
    }
  }

  lemma WordLength(line: string, word: string)
    requires HasWord(line, word)
    ensures |line| >= |word|
  {
  }

  // ---- ignored lines can be left out ----------------------------------------------------------

  /** An ignored line that is no brace and no branch. */
  ghost predicate Extra(x: string) {
    Ignored(x) && x != "{" && x != "}" && !HasWord(x, "if") && !HasWord(x, "else")
  }

  /** A place where a line can stand: not in front of a lone opening brace and not in front of an else. */
  ghost predicate Place(rest: seq<string>) { rest == [] || (rest[0] != "{" && !HasWord(rest[0], "else")) }

  /** The same lines, perhaps with `x` once more somewhere. */
  ghost predicate Padded(more: seq<string>, lines: seq<string>, x: string) {
    || more == lines
    || exists i :: 0 <= i <= |lines| && more == lines[..i] + ([x] + lines[i..]) && Place(lines[i..])
  }

  ghost predicate Alike<T>(more: Parsed<T>, r: Parsed<T>, x: string) {
    if r.Err? then more.Err? else more.Ok? && more.value.0 == r.value.0 && Padded(more.value.1, r.value.1, x)
  }

  /** The line stands in front, or behind the first line. */
  lemma PaddedCases(more: seq<string>, lines: seq<string>, x: string)
    requires Padded(more, lines, x) && more != lines
    ensures (more == [x] + lines && Place(lines))
         || (lines != [] && more != [] && more[0] == lines[0] && Padded(more[1..], lines[1..], x))
  {
    hide Place;
    var i :| 0 <= i <= |lines| && more == lines[..i] + ([x] + lines[i..]) && Place(lines[i..]);
    if i == 0 {
      assert more == [x] + lines && lines[0..] == lines;
    } else {
      assert more[1..] == lines[1..][..i - 1] + ([x] + lines[1..][i - 1..]);
      assert lines[i..] == lines[1..][i - 1..];
    }
  }

  lemma PaddedSame(lines: seq<string>, x: string)
    ensures Padded(lines, lines, x)
  {
  }

  lemma ExtraInBlock(x: string, lines: seq<string>, stop: bool)
    requires Extra(x)
    ensures Block([x] + lines, stop) == Block(lines, stop)
  {
    hide Ignored, HasWord, StartsWithCommand, SimpleCommand, Chain;
    HasWordIsStart(x, "if");
    HasWordIsStart(x, "else");
    LineMeans(x);
    assert ([x] + lines)[1..] == lines;
  }

  lemma ConsAlike(c: Command, more: Parsed<seq<Command>>, r: Parsed<seq<Command>>, x: string)
    requires Alike(more, r, x)
    ensures Alike(Cons(c, more), Cons(c, r), x)
  {
    hide Padded;
  }

  /** Where a brace must stand on a line of its own, neither list has another line. */
  lemma BraceAlike(inline: bool, more: seq<string>, lines: seq<string>, x: string)
    requires Extra(x) && Padded(more, lines, x)
    ensures var m, r := AfterBrace(inline, more), AfterBrace(inline, lines);
            if r.Err? then m.Err? else m.Ok? && Padded(m.value, r.value, x) && |m.value| <= |more|
  {
    hide Padded, Ignored, HasWord;
    if more == lines {
      PaddedSame(lines, x);
      if lines != [] {
        PaddedSame(lines[1..], x);
      }
    } else {
      PaddedCases(more, lines, x);
    }
  }

  /** One more ignored line changes neither the commands nor whether there is an error. */
  lemma {:induction false} BlockAlike(more: seq<string>, lines: seq<string>, x: string, stop: bool)
    requires Extra(x) && Padded(more, lines, x)
    ensures Alike(Block(more, stop), Block(lines, stop), x)
    decreases |more|, 2
  {
    hide Block, Chain, Padded, Extra, HasWord, StartsWithCommand, SimpleCommand, Alike, Cons, Place;
    if more == lines {
      SameAlike(Block(lines, stop), x);
    } else {
      PaddedCases(more, lines, x);
      if more == [x] + lines {
        ExtraInBlock(x, lines, stop);
        SameAlike(Block(lines, stop), x);
      } else {
        BlockStep(more, lines, x, stop);
      }
    }
  }

  lemma SameAlike<T>(r: Parsed<T>, x: string)
    ensures Alike(r, r, x)
  {
  }

  lemma OkAlike<T>(c: T, more: seq<string>, lines: seq<string>, x: string)
    requires Padded(more, lines, x)
    ensures Alike(Ok((c, more)), Ok((c, lines)), x)
  {
    hide Padded;
  }

  lemma {:induction false} BlockStep(more: seq<string>, lines: seq<string>, x: string, stop: bool)
    requires Extra(x) && Padded(more, lines, x)
    requires lines != [] && more != [] && more[0] == lines[0] && Padded(more[1..], lines[1..], x)
    ensures Alike(Block(more, stop), Block(lines, stop), x)
    decreases |more|, 1
  {
    hide Block, Chain, Padded, Extra, HasWord, StartsWithCommand, SimpleCommand, Alike, Cons;
    BlockAtLine(more, 0, stop);
    BlockAtLine(lines, 0, stop);
    assert more[0..] == more && lines[0..] == lines && more[0 + 1..] == more[1..] && lines[0 + 1..] == lines[1..];
    var line := lines[0];
    if line == "}" {
      if stop {
        OkAlike<seq<Command>>([], more[1..], lines[1..], x);
      } else {
        BlockAlike(more[1..], lines[1..], x, stop);
      }
    } else if StartsIf(line) {
      ChainAlike(more, lines, x);
      var m, r := Chain(more), Chain(lines);
      AlikeParts(m, r, x);
      if r.Ok? {
        BlockAlike(m.value.1, r.value.1, x, stop);
        ConsAlike(r.value.0, Block(m.value.1, stop), Block(r.value.1, stop), x);
      } else {
        ErrAlike<seq<Command>>(x);
      }
    } else if StartsElse(line) {
      OkAlike<seq<Command>>([], more, lines, x);
    } else {
      BlockAlike(more[1..], lines[1..], x, stop);
      var c := SimpleCommand(line);
      if c.Err? {
        ErrAlike<seq<Command>>(x);
      } else if c.value.Some? {
        ConsAlike(c.value.value, Block(more[1..], stop), Block(lines[1..], stop), x);
      }
    }
  }

  lemma AlikeParts<T>(more: Parsed<T>, r: Parsed<T>, x: string)
    requires Alike(more, r, x)
    ensures if r.Err? then more.Err? else more.Ok? && more.value.0 == r.value.0 && Padded(more.value.1, r.value.1, x)
  {
  }

  lemma ErrAlike<T>(x: string)
    ensures Alike<T>(Err, Err, x)
  {
  }

  lemma {:induction false} ChainAlike(more: seq<string>, lines: seq<string>, x: string)
    requires Extra(x) && lines != [] && more != [] && more[0] == lines[0] && Padded(more[1..], lines[1..], x)
    ensures Alike(Chain(more), Chain(lines), x)
    decreases |more|, 0
  {
    hide Block, Chain, ElsePart, Padded, Extra, HasWord, StartsWithCommand, Alike, AfterBrace, ExtractCondition,
         HasInlineOpenBrace, HeadOf;
    ChainAtLine(more);
    ChainAtLine(lines);
    var head := HeadOf(lines[0]);
    if !StartsIf(head) || ExtractCondition(head).Err? {
      ErrAlike<Command>(x);
    } else {
      var inline := HasInlineOpenBrace(head);
      BraceAlike(inline, more[1..], lines[1..], x);
      if AfterBrace(inline, lines[1..]).Err? {
        ErrAlike<Command>(x);
      } else {
        var m, r := AfterBrace(inline, more[1..]).value, AfterBrace(inline, lines[1..]).value;
        BlockAlike(m, r, x, true);
        AlikeParts(Block(m, true), Block(r, true), x);
        if Block(r, true).Err? {
          ErrAlike<Command>(x);
        } else {
          var m2, r2 := Block(m, true).value.1, Block(r, true).value.1;
          ElseAlike(m2, r2, x);
          AlikeParts(ElsePart(m2), ElsePart(r2), x);
          if ElsePart(r2).Err? {
            ErrAlike<Command>(x);
          } else {
            OkAlike(If(ExtractCondition(head).value, Block(r, true).value.0, ElsePart(r2).value.0),
                    ElsePart(m2).value.1, ElsePart(r2).value.1, x);
          }
        }
      }
    }
  }

  lemma {:induction false} ElseAlike(more: seq<string>, lines: seq<string>, x: string)
    requires Extra(x) && Padded(more, lines, x)
    ensures Alike(ElsePart(more), ElsePart(lines), x)
    decreases |more|, 2
  {
    hide Block, Chain, Padded, HasWord, StartsWithCommand, Alike, AfterBrace, BehindElse, Ignored;
    if more == lines {
      SameAlike(ElsePart(lines), x);
    } else {
      PaddedCases(more, lines, x);
      if more == [x] + lines {
        HasWordIsStart(x, "else");
        if lines != [] {
          HasWordIsStart(lines[0], "else");
        }
        OkAlike<seq<Command>>([], more, lines, x);
      } else if !StartsElse(lines[0]) {
        OkAlike<seq<Command>>([], more, lines, x);
      } else {
        ElseStep(more, lines, x);
      }
    }
  }

  lemma {:induction false} ElseStep(more: seq<string>, lines: seq<string>, x: string)
    requires Extra(x) && lines != [] && more != [] && more[0] == lines[0] && Padded(more[1..], lines[1..], x)
    requires StartsElse(lines[0])
    ensures Alike(ElsePart(more), ElsePart(lines), x)
    decreases |more|, 1
  {
    hide Block, Chain, Padded, Extra, HasWord, StartsWithCommand, Alike, AfterBrace, BehindElse;
    if StartsIf(BehindElse(lines[0])) {
      ChainAlike(more, lines, x);
      AlikeParts(Chain(more), Chain(lines), x);
      if Chain(lines).Err? {
        ErrAlike<seq<Command>>(x);
      } else {
        OkAlike([Chain(lines).value.0], Chain(more).value.1, Chain(lines).value.1, x);
      }
    } else {
      var inline := '{' in lines[0];
      BraceAlike(inline, more[1..], lines[1..], x);
      if AfterBrace(inline, lines[1..]).Err? {
        ErrAlike<seq<Command>>(x);
      } else {
        BlockAlike(AfterBrace(inline, more[1..]).value, AfterBrace(inline, lines[1..]).value, x, true);
      }
    }
  }

  /** In front of the brace that an If waits for, such a line is an error. */
  lemma NotBeforeItsBrace(h: ScriptRoundTrip.Head, x: string, rest: seq<string>, stop: bool)
    requires ScriptRoundTrip.ValidHead(h) && !h.inlineBrace && Extra(x)
    ensures Block([ScriptRoundTrip.HeadText(h)] + ([x] + rest), stop).Err?
  {
    hide Ignored, HasWord, StartsWithCommand, ScriptRoundTrip.HeadText, ScriptRoundTrip.ValidHead, ExtractCondition,
         HasInlineOpenBrace;
    var lines := [ScriptRoundTrip.HeadText(h)] + ([x] + rest);
    ScriptRoundTrip.HeadStartsIf(h);
    ScriptRoundTrip.HeadBrace(h);
    CloseIsNoIf();
    assert lines[1..] == [x] + rest;
    ChainAtLine(lines);
    BlockAtLine(lines, 0, stop);
    assert lines[0..] == lines;
  }

  lemma CloseIsNoIf()
    ensures !StartsIf("}")
  {
  }

  /** In front of an else it cuts the else off its If: the block ends there. */
  lemma NotBeforeElse(x: string, line: string, rest: seq<string>, stop: bool)
    requires Extra(x) && HasWord(line, "else")
    ensures ElsePart([x] + ([line] + rest)) == Ok(([], [x] + ([line] + rest)))
    ensures Block([x] + ([line] + rest), stop) == Ok(([], [line] + rest))
  {
    hide Ignored, StartsWithCommand, Chain, SimpleCommand;
    ExtraInBlock(x, [line] + rest, stop);
    HasWordIsStart(x, "else");
    HasWordIsStart(line, "else");
    HasWordIsStart(line, "if");
  }

  // ---- on the text of a block --------------------------------------------------------------------

  lemma {:induction false} MeaningAppend(a: seq<RawLine>, b: seq<RawLine>)
    ensures BlockMeaning(a + b) == BlockMeaning(a) + BlockMeaning(b)
    decreases |a|
  {
    if a == [] {
      assert a + b == b;
    } else {
      assert (a + b)[1..] == a[1..] + b;
      MeaningAppend(a[1..], b);
    }
  }

  /** Any line that means an ignored line can be put into the text of any block, valid or not, but in front
      of a lone opening brace or an else: the commands, or the error, stay the same. */
  lemma IgnoredLineChangesNothing(before: seq<RawLine>, r: RawLine, behind: seq<RawLine>, x: string)
    requires ValidBlock(before) && ValidLine(r) && ValidBlock(behind)
    requires LineMeaning(r) == [x] && Extra(x) && Place(BlockMeaning(behind))
    ensures ParseActionBlock(BlockText(before + ([r] + behind))) == ParseActionBlock(BlockText(before + behind))
  {
    hide Block, BlockText, LineMeaning, ValidLine, Extra, Place;
    PreprocessBlock(before + behind);
    PreprocessBlock(before + ([r] + behind));
    MeaningAppend(before, behind);
    MeaningAppend(before, [r] + behind);
    MeaningAppend([r], behind);
    assert BlockMeaning([r]) == [x] by {
      assert [r][1..] == [];
    }
    var a, b := BlockMeaning(before), BlockMeaning(behind);
    assert (a + b)[..|a|] == a && (a + b)[|a|..] == b;
    assert Padded(a + ([x] + b), a + b, x);
    BlockAlike(a + ([x] + b), a + b, x, false);
  }
}
