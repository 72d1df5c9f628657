/** The `SendInput` sequence: text and special keys (src/commands/SendInputCommand.cpp:49-115). */
module SendInput {
  import opened Wrappers
  import Text
  import opened Decimal
  import opened Keys
  import opened BraceText

  datatype Part = Chunk(text: string) | Key(code: int, count: int)

  /** Text in front of parts; it merges with a text part that is already there. */
  function PrependText(t: string, parts: seq<Part>): seq<Part> {
    if t == "" then parts
    else if parts != [] && parts[0].Chunk? then [Chunk(t + parts[0].text)] + parts[1..]
    else [Chunk(t)] + parts
  }

  /** A brace that names a key. */
  function KeyPart(body: string): Result<Part> {
    var (name, rest) := ReadWord(body);
    var count := ReadInt(rest, 1);
    match SpecialKey(name)
    case Err => Err
    case Ok(code) => Ok(Key(code, if count < 1 then 1 else count))
  }

  /** What a sequence means: every character stands for itself except `{`. */
  function Parse(s: string): Result<seq<Part>>
    decreases |s|
  {
    if s == "" then Ok([])
    else if s[0] != '{' then
      match Parse(s[1..])
      case Err => Err
      case Ok(parts) => Ok(PrependText([s[0]], parts))
    else
      match ScanBrace(s)
      case Unterminated => Err
      case Closed(body, rest) =>
        if IsEscape(body) then
          match Parse(rest)
          case Err => Err
          case Ok(parts) => Ok(PrependText(body, parts))
        else
          match (KeyPart(body), Parse(rest))
          case (Ok(key), Ok(parts)) => Ok([key] + parts)
          case _ => Err
  }

  // ---- canonical part lists and their text -----------------------------------

  ghost predicate KnownCode(code: int) { exists name :: SpecialKey(name) == Ok(code) }

  ghost predicate ValidPart(p: Part) {
    match p
    case Chunk(t) => t != ""
    case Key(code, count) => KnownCode(code) && 1 <= count <= INT_MAX
  }

  ghost predicate Canonical(parts: seq<Part>) {
    && (forall i :: 0 <= i < |parts| ==> ValidPart(parts[i]))
    && (forall i :: 0 <= i < |parts| - 1 ==> parts[i].Key? || parts[i + 1].Key?)
  }

  /** Text with every `{` written as `{{}`. */
  function EscapeText(t: string): string {
    if t == "" then ""
    else (if t[0] == '{' then "{{}" else [t[0]]) + EscapeText(t[1..])
  }

  ghost function NameOf(code: int): (name: string)
    requires KnownCode(code)
    ensures SpecialKey(name) == Ok(code)
  {
    var name :| SpecialKey(name) == Ok(code);
    name
  }

  ghost function PrintPart(p: Part): string
    requires ValidPart(p)
  {
    match p
    case Chunk(t) => EscapeText(t)
    case Key(code, count) => "{" + ((NameOf(code) + (" " + ToString(count))) + "}")
  }

  ghost function Print(parts: seq<Part>): string
    requires Canonical(parts)
  {
    if parts == [] then "" else PrintPart(parts[0]) + Print(parts[1..])
  }

  function MapText(t: string, r: Result<seq<Part>>): Result<seq<Part>> {
    match r
    case Err => Err
    case Ok(parts) => Ok(PrependText(t, parts))
  }

  lemma PrependTwice(a: string, b: string, parts: seq<Part>)
    ensures PrependText(a, PrependText(b, parts)) == PrependText(a + b, parts)
  {
    assert a == "" ==> a + b == b;
    assert b == "" ==> a + b == a;
    if a != "" && b != "" {
      if parts != [] && parts[0].Chunk? {
        assert (a + b) + parts[0].text == a + (b + parts[0].text);
        assert PrependText(b, parts)[1..] == parts[1..];
      } else {
        assert PrependText(b, parts)[1..] == parts;
      }
    }
  }

  lemma MapTextTwice(a: string, b: string, r: Result<seq<Part>>)
    ensures MapText(a, MapText(b, r)) == MapText(a + b, r)
  {
    if r.Ok? {
      PrependTwice(a, b, r.value);
    }
  }

  /** Text without `{` is taken as it is. */
  lemma {:induction false} ParsePlain(t: string, rest: string)
    requires '{' !in t
    ensures Parse(t + rest) == MapText(t, Parse(rest))
  {
    if t == "" {
      assert t + rest == rest;
    } else {
      hide PrependText;
      assert (t + rest)[1..] == t[1..] + rest;
      assert (t + rest)[0] == t[0];
      ParsePlain(t[1..], rest);
      MapTextTwice([t[0]], t[1..], Parse(rest));
      assert [t[0]] + t[1..] == t;
    }
  }

  lemma ParseEscapedBrace(rest: string)
    ensures Parse("{{}" + rest) == MapText("{", Parse(rest))
  {
    ScanBraceOf("{", rest);
    assert "{" + ("{" + ("}" + rest)) == "{{}" + rest;
  }

  lemma EscapeStep(t: string)
    ensures t == "" ==> EscapeText(t) == ""
    ensures t != "" ==> EscapeText(t) == (if t[0] == '{' then "{{}" else [t[0]]) + EscapeText(t[1..])
  {
  }

  lemma {:induction false} ParseEscaped(t: string, rest: string)
    ensures Parse(EscapeText(t) + rest) == MapText(t, Parse(rest))
  {
    hide PrependText, Parse, MapText, EscapeText;
    EscapeStep(t);
    if t == "" {
      assert EscapeText(t) + rest == rest;
      MapNothing(Parse(rest));
    } else {
      var tail := EscapeText(t[1..]) + rest;
      ParseEscaped(t[1..], rest);
      if t[0] == '{' {
        assert EscapeText(t) + rest == "{{}" + tail;
        ParseEscapedBrace(tail);
      } else {
        assert EscapeText(t) + rest == [t[0]] + tail;
        ParsePlain([t[0]], tail);
      }
      MapTextTwice([t[0]], t[1..], Parse(rest));
      assert [t[0]] + t[1..] == t;
    }
  }

  lemma MapNothing(r: Result<seq<Part>>)
    ensures MapText("", r) == r
  {
  }

  lemma KeyBodyIsNoEscape(name: string, tail: string)
    requires IsKeyName(name)
    ensures !IsEscape(name + (" " + tail))
  {
    assert |name + (" " + tail)| > 1;
  }

  lemma NoBraceInKeyBody(name: string, count: nat)
    requires IsKeyName(name)
    ensures '}' !in name + (" " + ToString(count))
  {
    DigitsRoundTrip(count);
    forall i | 0 <= i < |name| ensures name[i] != '}' { assert Text.IsWord(name[i]); }
  }

  lemma ParseKeyBody(code: int, count: nat)
    requires KnownCode(code) && 1 <= count <= INT_MAX
    ensures KeyPart(NameOf(code) + (" " + ToString(count))) == Ok(Key(code, count))
  {
    hide ReadWord, ReadInt, SpecialKey, ToString;
    SpecialKeyNames(NameOf(code));
    ReadNameAndCount(NameOf(code), count, 1);
  }

  lemma PrintKeyText(code: int, count: nat, rest: string)
    requires KnownCode(code) && 1 <= count <= INT_MAX
    ensures PrintPart(Key(code, count)) + rest == "{" + (NameOf(code) + (" " + ToString(count)) + ("}" + rest))
  {
    hide KnownCode, ToString;
    var body := NameOf(code) + (" " + ToString(count));
    assert "{" + (body + "}") + rest == "{" + (body + ("}" + rest));
  }

  lemma ParseKeyBrace(s: string, body: string, rest: string)
    requires s != "" && s[0] == '{' && ScanBrace(s) == Closed(body, rest) && !IsEscape(body) && KeyPart(body).Ok?
    ensures Parse(s) == if Parse(rest).Ok? then Ok([KeyPart(body).value] + Parse(rest).value) else Err
  {
    hide KeyPart, PrependText;
  }

  lemma ParseKey(code: int, count: nat, rest: string)
    requires KnownCode(code) && 1 <= count <= INT_MAX
    ensures Parse(PrintPart(Key(code, count)) + rest)
            == match Parse(rest) case Err => Err case Ok(parts) => Ok([Key(code, count)] + parts)
  {
    hide KeyPart, ReadWord, ReadInt, SpecialKey, ToString, ScanBrace, Parse, IsEscape, PrintPart, KnownCode;
    PrintKeyText(code, count, rest);
    var body := NameOf(code) + (" " + ToString(count));
    SpecialKeyNames(NameOf(code));
    NoBraceInKeyBody(NameOf(code), count);
    ScanBraceOf(body, rest);
    assert PrintPart(Key(code, count)) + rest == "{" + (body + ("}" + rest));
    KeyBodyIsNoEscape(NameOf(code), ToString(count));
    ParseKeyBody(code, count);
    ParseKeyBrace("{" + (body + ("}" + rest)), body, rest);
  }

  lemma CanonicalSplits(parts: seq<Part>)
    requires Canonical(parts) && parts != []
    ensures ValidPart(parts[0]) && Canonical(parts[1..])
    ensures parts[0].Chunk? ==> PrependText(parts[0].text, parts[1..]) == parts
    ensures [parts[0]] + parts[1..] == parts
  {
    hide KnownCode;
    assert ValidPart(parts[0]);
    if |parts| > 1 {
      assert parts[0].Key? || parts[0 + 1].Key?;
    }
  }

  /** Parsing the text of a canonical part list gives the list back. */
  lemma {:induction false} ParsePrint(parts: seq<Part>)
    requires Canonical(parts)
    ensures Parse(Print(parts)) == Ok(parts)
  {
    if parts == [] {
      assert Parse("") == Ok([]);
    } else {
      hide Parse, KnownCode, Canonical, PrependText;
      CanonicalSplits(parts);
      ParsePrint(parts[1..]);
      if parts[0].Chunk? {
        ParseEscaped(parts[0].text, Print(parts[1..]));
      } else {
        ParseKey(parts[0].code, parts[0].count, Print(parts[1..]));
      }
    }
  }

  lemma PrependCanonical(t: string, parts: seq<Part>)
    requires Canonical(parts)
    ensures Canonical(PrependText(t, parts))
  {
    hide KnownCode;
    var r := PrependText(t, parts);
    if t != "" {
      if parts != [] && parts[0].Chunk? {
        forall i | 0 <= i < |r| ensures ValidPart(r[i]) {
          assert i > 0 ==> r[i] == parts[i];
        }
        forall i | 0 <= i < |r| - 1 ensures r[i].Key? || r[i + 1].Key? {
          assert parts[i].Key? || parts[i + 1].Key?;
        }
      } else {
        forall i | 0 <= i < |r| ensures ValidPart(r[i]) {
          assert i > 0 ==> r[i] == parts[i - 1];
        }
        forall i | 0 <= i < |r| - 1 ensures r[i].Key? || r[i + 1].Key? {
          assert i > 0 ==> parts[i - 1].Key? || parts[i - 1 + 1].Key?;
        }
      }
    }
  }

  /** Every accepted sequence gives a canonical part list. */
  lemma {:induction false} ParseCanonical(s: string)
    requires Parse(s).Ok?
    ensures Canonical(Parse(s).value)
    decreases |s|
  {
    if s != "" {
      hide PrependText, KeyPart, ScanBrace, Canonical;
      if s[0] != '{' {
        ParseCanonical(s[1..]);
        PrependCanonical([s[0]], Parse(s[1..]).value);
      } else {
        var b := ScanBrace(s);
        ParseCanonical(b.rest);
        if IsEscape(b.body) {
          PrependCanonical(b.body, Parse(b.rest).value);
        } else {
          KeyPartValid(b.body);
          KeyCanonical(KeyPart(b.body).value, Parse(b.rest).value);
        }
      }
    } else {
      assert Canonical([]);
    }
  }

  lemma KeyPartValid(body: string)
    requires KeyPart(body).Ok?
    ensures KeyPart(body).value.Key? && ValidPart(KeyPart(body).value)
  {
    hide SpecialKey, ReadWord;
    var (name, rest) := ReadWord(body);
    assert KnownCode(SpecialKey(name).value);
    CountInRange(rest);
  }

  lemma CountInRange(rest: string)
    ensures ReadInt(rest, 1) <= INT_MAX
  {
  }

  lemma KeyCanonical(key: Part, parts: seq<Part>)
    requires key.Key? && ValidPart(key) && Canonical(parts)
    ensures Canonical([key] + parts)
  {
    hide ValidPart;
    var r := [key] + parts;
    forall i | 0 <= i < |r| ensures ValidPart(r[i]) {
      assert i > 0 ==> r[i] == parts[i - 1];
    }
    forall i | 0 <= i < |r| - 1 ensures r[i].Key? || r[i + 1].Key? {
      assert i > 0 ==> parts[i - 1].Key? || parts[i - 1 + 1].Key?;
    }
  }

  /** Printing what was parsed and parsing it again changes nothing. */
  lemma ParseNormalizes(s: string)
    requires Parse(s).Ok?
    ensures Canonical(Parse(s).value) && Parse(Print(Parse(s).value)) == Parse(s)
  {
    hide Parse, Canonical;
    ParseCanonical(s);
    ParsePrint(Parse(s).value);
  }
}
