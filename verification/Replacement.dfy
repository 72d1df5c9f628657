/** The inline replacement of a hotstring: text and tail keys (src/AhkParser.cpp:517-629), and when it
    reads a text as `SendInput` does. */
module Replacement {
  import opened Wrappers
  import opened Text
  import opened Decimal
  import opened Keys
  import opened BraceText
  import opened SendInput

  const COUNTED_KEYS: map<string, int> := map[
    "Left" := KEY_LEFT, "Right" := KEY_RIGHT, "Up" := KEY_UP, "Down" := KEY_DOWN, "Home" := KEY_HOME,
    "End" := KEY_END, "Delete" := KEY_DELETE, "Del" := KEY_DELETE, "Backspace" := KEY_BACKSPACE,
    "BS" := KEY_BACKSPACE
  ]

  const SINGLE_KEYS: map<string, int> := map[
    "Enter" := KEY_ENTER, "Return" := KEY_ENTER, "Tab" := KEY_TAB, "Escape" := KEY_ESC, "Esc" := KEY_ESC,
    "Space" := KEY_SPACE, "SPACE" := KEY_SPACE
  ]

  type TailKey = (int, int)

  /** A brace that names a tail key and how often to tap it; the count may be zero or negative. */
  function TailOf(body: string): Result<TailKey> {
    var (name, rest) := ReadWord(body);
    if name in COUNTED_KEYS then Ok((COUNTED_KEYS[name], ReadInt(rest, 1)))
    else if name in SINGLE_KEYS then Ok((SINGLE_KEYS[name], 1))
    else Err
  }

  datatype Body = Body(text: string, tail: seq<TailKey>)

  /** What a replacement means. */
  function Read(s: string): Result<Body>
    decreases |s|
  {
    if s == "" then Ok(Body("", []))
    else if s[0] != '{' then
      match Read(s[1..])
      case Err => Err
      case Ok(b) => Ok(b.(text := [s[0]] + b.text))
    else
      match ScanBrace(s)
      case Unterminated => Err
      case Closed(body, rest) =>
        if IsEscape(body) then
          match Read(rest)
          case Err => Err
          case Ok(b) => Ok(b.(text := body + b.text))
        else
          match (TailOf(body), Read(rest))
          case (Ok(key), Ok(b)) => Ok(b.(tail := [key] + b.tail))
          case _ => Err
  }

  function Extend(b: Body, r: Result<Body>): Result<Body> {
    match r
    case Err => Err
    case Ok(c) => Ok(Body(b.text + c.text, b.tail + c.tail))
  }

  lemma {:induction false} ReadPlain(t: string, rest: string)
    requires '{' !in t
    ensures Read(t + rest) == Extend(Body(t, []), Read(rest))
  {
    if t == "" {
      assert t + rest == rest;
      ExtendNothing(Read(rest));
    } else {
      assert (t + rest)[1..] == t[1..] + rest;
      assert (t + rest)[0] == t[0];
      ReadPlain(t[1..], rest);
      ExtendTwice(Body([t[0]], []), Body(t[1..], []), Read(rest));
      assert [t[0]] + t[1..] == t;
      assert Read(t[1..] + rest).Ok? ==>
          Extend(Body([t[0]], []), Read(t[1..] + rest)).value.tail == Read(t[1..] + rest).value.tail;
    }
  }

  lemma ExtendNothing(r: Result<Body>)
    ensures Extend(Body("", []), r) == r
  {
    if r.Ok? {
      assert "" + r.value.text == r.value.text && [] + r.value.tail == r.value.tail;
    }
  }

  lemma ExtendTwice(a: Body, b: Body, r: Result<Body>)
    ensures Extend(a, Extend(b, r)) == Extend(Body(a.text + b.text, a.tail + b.tail), r)
  {
    if r.Ok? {
      assert a.text + (b.text + r.value.text) == (a.text + b.text) + r.value.text;
      assert a.tail + (b.tail + r.value.tail) == (a.tail + b.tail) + r.value.tail;
    }
  }

  lemma ReadAtBrace(s: string, body: string, rest: string)
    requires s != "" && s[0] == '{' && ScanBrace(s) == Closed(body, rest)
    ensures IsEscape(body) ==> Read(s) == Extend(Body(body, []), Read(rest))
    ensures !IsEscape(body) && TailOf(body).Ok? ==> Read(s) == Extend(Body("", [TailOf(body).value]), Read(rest))
    ensures !IsEscape(body) && TailOf(body).Err? ==> Read(s) == Err
  {
    hide TailOf;
    if Read(rest).Ok? {
      assert "" + Read(rest).value.text == Read(rest).value.text;
      assert [] + Read(rest).value.tail == Read(rest).value.tail;
    }
  }

  lemma ReadPlainUntil(s: string, pos: nat, start: nat)
    requires pos <= |s| && start == pos + Find(s[pos..], '{')
    ensures start <= |s| && Read(s[pos..]) == Extend(Body(s[pos..start], []), Read(s[start..]))
    ensures start < |s| ==> s[start] == '{'
  {
    hide Read;
    assert s[pos..] == s[pos..start] + s[start..];
    assert forall k :: 0 <= k < start - pos ==> s[pos..start][k] == s[pos..][k];
    ReadPlain(s[pos..start], s[start..]);
  }

  lemma ReadEndsHere(s: string)
    ensures Read("") == Ok(Body("", []))
    ensures s != "" && s[0] == '{' && ScanBrace(s).Unterminated? ==> Read(s) == Err
  {
  }

  lemma ExtendedBy(sofar: Body, b: Body, r: Result<Body>)
    ensures Extend(Body(sofar.text + b.text, sofar.tail + b.tail), r) == Extend(sofar, Extend(b, r))
  {
    ExtendTwice(sofar, b, r);
  }

  lemma AppendNothing(b: Body)
    ensures Body(b.text + "", b.tail + []) == b
    ensures forall t: string :: Body(b.text + t, b.tail + []) == Body(b.text + t, b.tail)
    ensures forall k: seq<TailKey> :: Body(b.text + "", b.tail + k) == Body(b.text, b.tail + k)
  {
  }

  /** `parse_replacement` as the source runs it. */
  method ParseReplacement(replacement: string) returns (r: Result<Body>)
    ensures r == Read(replacement)
  {
    hide Read, Extend, ScanBrace, TailOf, IsEscape;
    var sofar := Body("", []);
    var pos := 0;
    assert replacement[0..] == replacement;
    ExtendNothing(Read(replacement));
    while pos < |replacement|
      invariant 0 <= pos <= |replacement|
      invariant Read(replacement) == Extend(sofar, Read(replacement[pos..]))
    {
      var bracket := pos + Find(replacement[pos..], '{');
      ReadPlainUntil(replacement, pos, bracket);
      ExtendedBy(sofar, Body(replacement[pos..bracket], []), Read(replacement[bracket..]));
      AppendNothing(sofar);
      sofar := sofar.(text := sofar.text + replacement[pos..bracket]);
      if bracket == |replacement| {
        pos := bracket;
        break;
      }
      var brace := ScanBrace(replacement[bracket..]);
      ReadEndsHere(replacement[bracket..]);
      if brace.Unterminated? {
        ExtendErr(sofar);
        return Err;
      }
      ReadAtBrace(replacement[bracket..], brace.body, brace.rest);
      BraceEnd(replacement, bracket);
      AppendNothing(sofar);
      if IsEscape(brace.body) {
        ExtendedBy(sofar, Body(brace.body, []), Read(brace.rest));
        sofar := sofar.(text := sofar.text + brace.body);
      } else {
        var key := TailOf(brace.body);
        if key.Err? {
          ExtendErr(sofar);
          return Err;
        }
        ExtendedBy(sofar, Body("", [key.value]), Read(brace.rest));
        sofar := sofar.(tail := sofar.tail + [key.value]);
      }
      pos := |replacement| - |brace.rest|;
    }
    assert replacement[pos..] == "";
    ReadEndsHere("");
    ExtendOk(sofar, Body("", []));
    AppendNothing(sofar);
    r := Ok(sofar);
  }

  lemma ExtendErr(b: Body)
    ensures Extend(b, Err) == Err
  {
  }

  lemma ExtendOk(a: Body, b: Body)
    ensures Extend(a, Ok(b)) == Ok(Body(a.text + b.text, a.tail + b.tail))
  {
  }

  // ---- agreement with SendInput ------------------------------------------------

  function TextOf(parts: seq<Part>): string {
    if parts == [] then ""
    else (if parts[0].Chunk? then parts[0].text else "") + TextOf(parts[1..])
  }

  function KeysOf(parts: seq<Part>): seq<TailKey> {
    if parts == [] then []
    else (if parts[0].Key? then [(parts[0].code, parts[0].count)] else []) + KeysOf(parts[1..])
  }

  /** Both readers accept `s`, with the same text and the same keys in the same order. */
  predicate Agree(s: string) {
    Parse(s).Ok? && Read(s).Ok? && TextOf(Parse(s).value) == Read(s).value.text
    && KeysOf(Parse(s).value) == Read(s).value.tail
  }

  /** A brace both readers read alike: a shared key name; a counted key with no count or a positive
      one; a single key without a count above one. */
  predicate SharedBrace(body: string) {
    var (name, rest) := ReadWord(body);
    if name in COUNTED_KEYS then ReadInt(rest, 1) >= 1
    else name in SINGLE_KEYS && name != "SPACE" && ReadInt(rest, 1) <= 1
  }

  /** Every brace of `s` is closed and is an escape or a shared key. */
  predicate SharedNotation(s: string)
    decreases |s|
  {
    s == "" ||
    if s[0] != '{' then SharedNotation(s[1..])
    else
      match ScanBrace(s)
      case Unterminated => false
      case Closed(body, rest) => (IsEscape(body) || SharedBrace(body)) && SharedNotation(rest)
  }

  lemma CountedInitial(name: string)
    requires name in COUNTED_KEYS
    ensures name != "" && name[0] != 'N' && name[0] != 'F'
  {
  }

  lemma CountedInTables(name: string)
    requires name in COUNTED_KEYS
    ensures if name == "Backspace" || name == "BS" then name !in NAVIGATION_KEYS && name in EDITING_KEYS
            && EDITING_KEYS[name] == COUNTED_KEYS[name]
            else name in NAVIGATION_KEYS && NAVIGATION_KEYS[name] == COUNTED_KEYS[name]
  {
  }

  lemma CountedCodes(name: string)
    requires name in COUNTED_KEYS
    ensures SpecialKey(name) == Ok(COUNTED_KEYS[name])
  {
    hide NAVIGATION_KEYS, EDITING_KEYS, COUNTED_KEYS, SpecialKey;
    CountedInitial(name);
    CountedInTables(name);
    OtherInitial(name);
  }

  lemma SingleInitial(name: string)
    requires name in SINGLE_KEYS
    ensures name != "" && name[0] != 'N' && name[0] != 'F'
  {
  }

  lemma SingleInTables(name: string)
    requires name in SINGLE_KEYS
    ensures name !in COUNTED_KEYS && name !in NAVIGATION_KEYS
    ensures if name == "SPACE" then name !in EDITING_KEYS
            else name in EDITING_KEYS && EDITING_KEYS[name] == SINGLE_KEYS[name]
  {
  }

  lemma SingleCodes(name: string)
    requires name in SINGLE_KEYS
    ensures name !in COUNTED_KEYS
    ensures SpecialKey(name) == if name == "SPACE" then Err else Ok(SINGLE_KEYS[name])
  {
    hide NAVIGATION_KEYS, EDITING_KEYS, SINGLE_KEYS, COUNTED_KEYS, SpecialKey;
    SingleInitial(name);
    SingleInTables(name);
    OtherInitial(name);
  }

  lemma SameKey(body: string)
    ensures SharedBrace(body) <==>
              KeyPart(body).Ok? && TailOf(body).Ok?
              && (KeyPart(body).value.code, KeyPart(body).value.count) == TailOf(body).value
  {
    hide ReadWord, ReadInt, SpecialKey, COUNTED_KEYS, SINGLE_KEYS;
    var name := ReadWord(body).0;
    if name in COUNTED_KEYS {
      CountedCodes(name);
    } else if name in SINGLE_KEYS {
      SingleCodes(name);
    }
  }

  lemma TextOfPrepended(t: string, parts: seq<Part>)
    ensures TextOf(PrependText(t, parts)) == t + TextOf(parts)
    ensures KeysOf(PrependText(t, parts)) == KeysOf(parts)
  {
    var r := PrependText(t, parts);
    if t == "" {
      assert t + TextOf(parts) == TextOf(parts);
    } else if parts != [] && parts[0].Chunk? {
      assert r[1..] == parts[1..];
      assert (t + parts[0].text) + TextOf(parts[1..]) == t + (parts[0].text + TextOf(parts[1..]));
    } else {
      assert r[1..] == parts;
    }
  }

  lemma KeysOfPrepended(key: Part, parts: seq<Part>)
    requires key.Key?
    ensures TextOf([key] + parts) == TextOf(parts)
    ensures KeysOf([key] + parts) == [(key.code, key.count)] + KeysOf(parts)
  {
    assert ([key] + parts)[1..] == parts;
    assert "" + TextOf(parts) == TextOf(parts);
  }

  lemma SameTextInFront(t: string, a: Result<seq<Part>>, b: Result<Body>)
    requires a.Ok? && b.Ok?
    ensures MapText(t, a).Ok? && Extend(Body(t, []), b).Ok?
    ensures (TextOf(MapText(t, a).value) == Extend(Body(t, []), b).value.text
             && KeysOf(MapText(t, a).value) == Extend(Body(t, []), b).value.tail)
       <==> (TextOf(a.value) == b.value.text && KeysOf(a.value) == b.value.tail)
  {
    hide TextOf, KeysOf, PrependText;
    TextOfPrepended(t, a.value);
    assert (t + TextOf(a.value))[|t|..] == TextOf(a.value);
    assert (t + b.value.text)[|t|..] == b.value.text;
    assert [] + b.value.tail == b.value.tail;
  }

  /** The two readers agree on a text exactly when it uses the shared notation only. */
  lemma {:induction false} ReadersAgree(s: string)
    ensures Agree(s) <==> SharedNotation(s)
    decreases |s|
  {
    hide TextOf, KeysOf, ScanBrace, Parse, Read, SharedBrace, IsEscape, KeyPart, TailOf;
    if s == "" {
      AgreeOnNothing();
      assert s == "";
    } else if s[0] != '{' {
      ReadersAgree(s[1..]);
      AgreeOnChar(s);
    } else {
      ReadEndsHere(s);
      if ScanBrace(s).Closed? {
        var b := ScanBrace(s);
        ReadersAgree(b.rest);
        if IsEscape(b.body) {
          AgreeOnEscape(s, b.body, b.rest);
        } else {
          AgreeOnKey(s, b.body, b.rest);
        }
      }
    }
  }

  lemma AgreeOnNothing()
    ensures Agree("")
  {
  }

  lemma AgreeOnChar(s: string)
    requires s != "" && s[0] != '{'
    ensures Agree(s) <==> Agree(s[1..])
  {
    hide TextOf, KeysOf, Parse, Read, Extend, MapText;
    assert s == [s[0]] + s[1..];
    ParsePlain([s[0]], s[1..]);
    ReadPlain([s[0]], s[1..]);
    AgreeBehindText([s[0]], s, s[1..]);
  }

  lemma AgreeBehindText(t: string, s: string, rest: string)
    requires Parse(s) == MapText(t, Parse(rest)) && Read(s) == Extend(Body(t, []), Read(rest))
    ensures Agree(s) <==> Agree(rest)
  {
    hide TextOf, KeysOf, Parse, Read, PrependText;
    if Parse(rest).Ok? && Read(rest).Ok? {
      SameTextInFront(t, Parse(rest), Read(rest));
    }
  }

  lemma AgreeOnEscape(s: string, body: string, rest: string)
    requires s != "" && s[0] == '{' && ScanBrace(s) == Closed(body, rest) && IsEscape(body)
    ensures Agree(s) <==> Agree(rest)
  {
    hide TextOf, KeysOf, Extend, MapText, ScanBrace, IsEscape, Agree;
    ReadAtBrace(s, body, rest);
    assert Parse(s) == MapText(body, Parse(rest)) by { EscapeParses(s, body, rest); }
    AgreeBehindText(body, s, rest);
  }

  lemma EscapeParses(s: string, body: string, rest: string)
    requires s != "" && s[0] == '{' && ScanBrace(s) == Closed(body, rest) && IsEscape(body)
    ensures Parse(s) == MapText(body, Parse(rest))
  {
    hide PrependText;
  }

  lemma KeyParses(s: string, body: string, rest: string)
    requires s != "" && s[0] == '{' && ScanBrace(s) == Closed(body, rest) && !IsEscape(body)
    ensures Parse(s) == match (KeyPart(body), Parse(rest))
                        case (Ok(key), Ok(parts)) => Ok([key] + parts)
                        case _ => Err
  {
    hide KeyPart;
  }

  lemma AgreeOnKey(s: string, body: string, rest: string)
    requires s != "" && s[0] == '{' && ScanBrace(s) == Closed(body, rest) && !IsEscape(body)
    ensures Agree(s) <==> SharedBrace(body) && Agree(rest)
  {
    hide TextOf, KeysOf, ScanBrace, IsEscape, SharedBrace, TailOf, Parse, Read;
    ReadAtBrace(s, body, rest);
    KeyParses(s, body, rest);
    SameKey(body);
    if KeyPart(body).Ok? && TailOf(body).Ok? && Parse(rest).Ok? && Read(rest).Ok? {
      var key := KeyPart(body).value;
      KeysOfPrepended(key, Parse(rest).value);
      SameFirst((key.code, key.count), KeysOf(Parse(rest).value), TailOf(body).value, Read(rest).value.tail);
      assert "" + Read(rest).value.text == Read(rest).value.text;
    }
  }

  lemma SameFirst(a: TailKey, x: seq<TailKey>, b: TailKey, y: seq<TailKey>)
    ensures [a] + x == [b] + y <==> a == b && x == y
  {
    assert ([a] + x)[1..] == x && ([b] + y)[1..] == y;
    assert ([a] + x)[0] == a && ([b] + y)[0] == b;
  }

  // ---- the counts -----------------------------------------------------------------------------

  /** `{name n}`: `SendInput` taps the key at least once, the replacement as often as it says, and some keys
      of the replacement only ever once.  Without a number the key is tapped once. */
  lemma CountsAreRead(name: string, n: int)
    requires SpecialKey(name).Ok? && InInt(n)
    ensures KeyPart(name + (" " + ToString(n))) == Ok(Key(SpecialKey(name).value, if n < 1 then 1 else n))
    ensures KeyPart(name) == Ok(Key(SpecialKey(name).value, 1))
    ensures name in COUNTED_KEYS ==>
              TailOf(name + (" " + ToString(n))) == Ok((SpecialKey(name).value, n))
              && TailOf(name) == Ok((SpecialKey(name).value, 1))
    ensures name in SINGLE_KEYS ==>
              TailOf(name + (" " + ToString(n))) == TailOf(name) == Ok((SpecialKey(name).value, 1))
  {
    hide ReadWord, ReadInt, SpecialKey, COUNTED_KEYS, SINGLE_KEYS, ToString;
    SpecialKeyNames(name);
    ReadNameAndCount(name, n, 1);
    ReadNameOnly(name, 'x', "", 1);
    if name in COUNTED_KEYS {
      CountedCodes(name);
    }
    if name in SINGLE_KEYS {
      SingleCodes(name);
    }
  }

  // ---- the escapes ---------------------------------------------------------------------------

  /** `{!} {+} {^} {#} {{}` stand for their character in both readers. */
  lemma EscapesStandForThemselves(c: char, rest: string)
    requires c in "!+^#{"
    ensures Read("{" + ([c] + ("}" + rest))) == Extend(Body([c], []), Read(rest))
    ensures Parse("{" + ([c] + ("}" + rest))) == MapText([c], Parse(rest))
  {
    hide TailOf, KeyPart;
    var s := "{" + ([c] + ("}" + rest));
    ScanBraceOf([c], rest);
    ReadAtBrace(s, [c], rest);
    EscapeParses(s, [c], rest);
  }

  /** `{}}` does not: both readers end the brace at the first `}`, and an empty brace is no key. */
  lemma ClosingBraceIsNoEscape(rest: string)
    ensures Read("{" + ("}" + rest)) == Err && Parse("{" + ("}" + rest)) == Err
  {
    hide COUNTED_KEYS, SINGLE_KEYS, SpecialKey, TailOf, KeyPart, ScanBrace, Parse, Read, IsEscape;
    var s := "{" + ("}" + rest);
    ScanBraceOf("", rest);
    assert "" + ("}" + rest) == "}" + rest;
    EmptyBraceIsNoKey();
    ReadAtBrace(s, "", rest);
    KeyParses(s, "", rest);
  }

  lemma EmptyBraceIsNoKey()
    ensures TailOf("").Err? && KeyPart("").Err? && !IsEscape("")
  {
    hide SpecialKey, COUNTED_KEYS, SINGLE_KEYS;
    assert ReadWord("").0 == "";
    if "" in COUNTED_KEYS {
      CountedInitial("");
    }
    if "" in SINGLE_KEYS {
      SingleInitial("");
    }
    if SpecialKey("").Ok? {
      SpecialKeyNames("");
    }
  }
}
