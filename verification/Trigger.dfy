/** Triggers: UTF-8 characters, the keyboard layout and trigger expressions
    (src/AhkParser.cpp:20-107 and 486-515, src/LayoutProfile.cpp:10-73). */
module Trigger {
  import opened Wrappers
  import opened Text
  import opened Keys

  type Layout = map<string, int>

  // ---- UTF-8 ---------------------------------------------------------------------------

  /** The length that a lead byte announces. */
  function CharLength(lead: char): nat {
    var b := lead as int;
    if 0xC0 <= b < 0xE0 then 2 else if 0xE0 <= b < 0xF0 then 3 else if 0xF0 <= b < 0xF8 then 4 else 1
  }

  /** `split_utf8`; a character cut off by the end throws. */
  function SplitUtf8(s: string): Result<seq<string>>
    decreases |s|
  {
    if s == "" then Ok([])
    else
      var n := CharLength(s[0]);
      if n > |s| then Err
      else
        match SplitUtf8(s[n..])
        case Err => Err
        case Ok(rest) => Ok([s[..n]] + rest)
  }

  predicate IsTail(c: char) { 0x80 <= c as int <= 0xBF }

  /** A well-formed character: the byte sequences of section 4 of RFC 3629. */
  predicate IsUtf8Char(s: string) {
    if |s| == 1 then s[0] as int <= 0x7F
    else if |s| == 2 then 0xC2 <= s[0] as int <= 0xDF && IsTail(s[1])
    else if |s| == 3 then
      var b, c := s[0] as int, s[1] as int;
      && IsTail(s[2])
      && (if b == 0xE0 then 0xA0 <= c <= 0xBF
          else if b == 0xED then 0x80 <= c <= 0x9F
          else 0xE1 <= b <= 0xEF && IsTail(s[1]))
    else if |s| == 4 then
      var b, c := s[0] as int, s[1] as int;
      && IsTail(s[2]) && IsTail(s[3])
      && (if b == 0xF0 then 0x90 <= c <= 0xBF
          else if b == 0xF4 then 0x80 <= c <= 0x8F
          else 0xF1 <= b <= 0xF3 && IsTail(s[1]))
    else false
  }

  function Concat(chars: seq<string>): string {
    if chars == [] then "" else chars[0] + Concat(chars[1..])
  }

  /** The lead byte of a well-formed character announces its length. */
  lemma LeadOfChar(s: string)
    requires IsUtf8Char(s)
    ensures s != "" && CharLength(s[0]) == |s|
  {
  }

  /** Splitting well-formed text gives back its characters. */
  lemma {:induction false} SplitConcat(chars: seq<string>)
    requires forall i :: 0 <= i < |chars| ==> IsUtf8Char(chars[i])
    ensures SplitUtf8(Concat(chars)) == Ok(chars)
  {
    if chars == [] {
    } else {
      var s := Concat(chars);
      var n := |chars[0]|;
      LeadOfChar(chars[0]);
      SplitConcat(chars[1..]);
      assert s[0] == chars[0][0] && s[..n] == chars[0] && s[n..] == Concat(chars[1..]);
      assert chars == [chars[0]] + chars[1..];
    }
  }

  /** Whatever is accepted, no byte is lost. */
  lemma {:induction false} SplitRejoins(s: string)
    requires SplitUtf8(s).Ok?
    ensures Concat(SplitUtf8(s).value) == s
    ensures forall i :: 0 <= i < |SplitUtf8(s).value| ==> SplitUtf8(s).value[i] != ""
    decreases |s|
  {
    if s != "" {
      var n := CharLength(s[0]);
      SplitRejoins(s[n..]);
      var chars := SplitUtf8(s).value;
      assert chars[1..] == SplitUtf8(s[n..]).value;
      assert s[..n] + s[n..] == s;
    }
  }

  method SplitChars(s: string) returns (r: Result<seq<string>>)
    ensures r == SplitUtf8(s)
  {
    var out := [];
    var i := 0;
    assert s[0..] == s;
    BehindNothing(SplitUtf8(s));
    while i < |s|
      invariant 0 <= i <= |s|
      invariant SplitUtf8(s) == Behind(out, SplitUtf8(s[i..]))
    {
      var n := CharLength(s[i]);
      if i + n > |s| {
        return Err;
      }
      assert s[i..][..n] == s[i..i + n] && s[i..][n..] == s[i + n..];
      BehindOne(out, s[i..i + n], SplitUtf8(s[i + n..]));
      out := out + [s[i..i + n]];
      i := i + n;
    }
    assert s[i..] == "" && out + [] == out;
    r := Ok(out);
  }

  function Behind<T>(out: seq<T>, r: Result<seq<T>>): Result<seq<T>> {
    match r
    case Err => Err
    case Ok(rest) => Ok(out + rest)
  }

  lemma BehindNothing<T>(r: Result<seq<T>>)
    ensures Behind([], r) == r
  {
    if r.Ok? {
      assert [] + r.value == r.value;
    }
  }

  lemma BehindOne<T>(out: seq<T>, c: T, r: Result<seq<T>>)
    ensures Behind(out + [c], r) == if r.Ok? then Behind(out, Ok([c] + r.value)) else Err
  {
    if r.Ok? {
      assert out + [c] + r.value == out + ([c] + r.value);
    }
  }

  // ---- the layout ------------------------------------------------------------------------

  /** The letters in UTF-8 bytes, in the order of the keyboard rows. */
  const UPPER_ROW: Layout := map[
    "\U{D0}\U{B9}" := 16, "\U{D1}\U{86}" := 17, "\U{D1}\U{83}" := 18, "\U{D0}\U{BA}" := 19,
    "\U{D0}\U{B5}" := 20, "\U{D0}\U{BD}" := 21, "\U{D0}\U{B3}" := 22, "\U{D1}\U{88}" := 23,
    "\U{D1}\U{89}" := 24, "\U{D0}\U{B7}" := 25, "\U{D1}\U{85}" := 26, "\U{D1}\U{8A}" := 27
  ]

  const MIDDLE_ROW: Layout := map[
    "\U{D1}\U{84}" := 30, "\U{D1}\U{8B}" := 31, "\U{D0}\U{B2}" := 32, "\U{D0}\U{B0}" := 33,
    "\U{D0}\U{BF}" := 34, "\U{D1}\U{80}" := 35, "\U{D0}\U{BE}" := 36, "\U{D0}\U{BB}" := 37,
    "\U{D0}\U{B4}" := 38, "\U{D0}\U{B6}" := 39, "\U{D1}\U{8D}" := 40
  ]

  const LOWER_ROW: Layout := map[
    "\U{D1}\U{8F}" := 44, "\U{D1}\U{87}" := 45, "\U{D1}\U{81}" := 46, "\U{D0}\U{BC}" := 47,
    "\U{D0}\U{B8}" := 48, "\U{D1}\U{82}" := 49, "\U{D1}\U{8C}" := 50, "\U{D0}\U{B1}" := 51,
    "\U{D1}\U{8E}" := 52
  ]

  const DIGIT_ROW: Layout := map[
    "1" := 2, "2" := 3, "3" := 4, "4" := 5, "5" := 6, "6" := 7, "7" := 8, "8" := 9, "9" := 10, "0" := 11
  ]

  function RussianQwerty(): Layout { UPPER_ROW + MIDDLE_ROW + LOWER_ROW + DIGIT_ROW }

  /** A layout maps well-formed characters, none of them a letter, space or `&` of ASCII. */
  ghost predicate ValidLayout(layout: Layout) {
    forall ch :: ch in layout ==> IsLayoutChar(ch)
  }

  predicate IsLayoutChar(ch: string) { IsUtf8Char(ch) && (|ch| > 1 || IsDigit(ch[0])) }

  lemma LettersAreValid(ch: string)
    requires ch in UPPER_ROW || ch in MIDDLE_ROW
    ensures IsLayoutChar(ch)
  {
  }

  lemma OtherRowsAreValid(ch: string)
    requires ch in LOWER_ROW || ch in DIGIT_ROW
    ensures IsLayoutChar(ch)
  {
  }

  lemma RussianQwertyIsValid()
    ensures ValidLayout(RussianQwerty())
  {
    hide UPPER_ROW, MIDDLE_ROW, LOWER_ROW, DIGIT_ROW, IsLayoutChar;
    forall ch | ch in RussianQwerty() ensures IsLayoutChar(ch) {
      if ch in UPPER_ROW || ch in MIDDLE_ROW {
        LettersAreValid(ch);
      } else {
        OtherRowsAreValid(ch);
      }
    }
  }

  // ---- trigger expressions ------------------------------------------------------------------

  function MapChars(chars: seq<string>, layout: Layout): Result<seq<int>> {
    if chars == [] then Ok([])
    else if chars[0] !in layout then Err
    else
      match MapChars(chars[1..], layout)
      case Err => Err
      case Ok(rest) => Ok([layout[chars[0]]] + rest)
  }

  /** The modifier in front of `&`; an unknown name is ignored. */
  function ModifierPart(name: string): seq<int> {
    match ModifierKey(name)
    case Err => []
    case Ok(code) => [code]
  }

  /** `parse_trigger_expr`: the keys and the modifiers. */
  function ParseTrigger(expr: string, layout: Layout): Result<(seq<int>, seq<int>)>
    decreases |expr|
  {
    var amp := Find(expr, '&');
    if amp < |expr| then
      var modifiers := ModifierPart(Trim(expr[..amp]));
      var key := Trim(expr[amp + 1..]);
      TrimIsTrimmed(expr[amp + 1..]);
      match SpecialKey(key)
      case Ok(code) => Ok(([code], modifiers))
      case Err =>
        if |key| == 1 && key[0] as int < 128 then
          if key in layout then Ok(([layout[key]], modifiers)) else Err
        else
          match ParseTrigger(key, layout)
          case Err => Err
          case Ok((keys, _)) => Ok((keys, modifiers))
    else
      match SpecialKey(expr)
      case Ok(code) => Ok(([code], []))
      case Err =>
        match SplitUtf8(expr)
        case Err => Err
        case Ok(chars) =>
          match MapChars(chars, layout)
          case Err => Err
          case Ok(keys) => Ok((keys, []))
  }

  ghost predicate AllMapped(chars: seq<string>, layout: Layout) {
    forall i :: 0 <= i < |chars| ==> chars[i] in layout
  }

  /** One key for each character, in order. */
  ghost function LayoutKeys(chars: seq<string>, layout: Layout): (keys: seq<int>)
    requires AllMapped(chars, layout)
    ensures |keys| == |chars| && forall i :: 0 <= i < |chars| ==> keys[i] == layout[chars[i]]
  {
    seq(|chars|, i requires 0 <= i < |chars| => layout[chars[i]])
  }

  lemma {:induction false} MapAllChars(chars: seq<string>, layout: Layout)
    requires AllMapped(chars, layout)
    ensures MapChars(chars, layout) == Ok(LayoutKeys(chars, layout))
  {
    if chars == [] {
    } else {
      MapAllChars(chars[1..], layout);
      assert LayoutKeys(chars, layout) == [layout[chars[0]]] + LayoutKeys(chars[1..], layout);
    }
  }

  /** The bytes of well-formed characters of a layout: digits, and bytes that are not ASCII. */
  predicate IsTriggerByte(c: char) { IsDigit(c) || c as int >= 0x80 }

  lemma {:induction false} BytesOfChars(chars: seq<string>)
    requires forall i :: 0 <= i < |chars| ==> IsLayoutChar(chars[i])
    ensures All(Concat(chars), IsTriggerByte)
  {
    if chars != [] {
      BytesOfChars(chars[1..]);
      assert IsLayoutChar(chars[0]);
      BytesOfChar(chars[0]);
    }
  }

  lemma BytesOfChar(ch: string)
    requires IsLayoutChar(ch)
    ensures All(ch, IsTriggerByte)
  {
  }

  lemma TriggerByteStartsNoWord()
    ensures forall c :: IsTriggerByte(c) ==> !IsWordStart(c) && !IsTrailing(c) && c != '&' && c != ':'
  {
  }

  lemma NotASpecialKey(chars: seq<string>)
    requires forall i :: 0 <= i < |chars| ==> IsLayoutChar(chars[i])
    ensures SpecialKey(Concat(chars)).Err?
  {
    hide SpecialKey, IsTriggerByte;
    BytesOfChars(chars);
    TriggerByteStartsNoWord();
    if SpecialKey(Concat(chars)).Ok? {
      SpecialKeyNames(Concat(chars));
    }
  }

  /** A trigger of characters of the layout has one key per character, and no modifier. */
  lemma TriggerOfChars(chars: seq<string>, layout: Layout)
    requires ValidLayout(layout) && AllMapped(chars, layout)
    ensures ParseTrigger(Concat(chars), layout) == Ok((LayoutKeys(chars, layout), []))
  {
    hide SpecialKey, IsTriggerByte;
    assert forall i :: 0 <= i < |chars| ==> IsLayoutChar(chars[i]);
    BytesOfChars(chars);
    TriggerByteStartsNoWord();
    NotASpecialKey(chars);
    SplitConcat(chars);
    MapAllChars(chars, layout);
  }

  lemma {:induction false} MapCharsAccepts(chars: seq<string>, layout: Layout)
    ensures MapChars(chars, layout).Ok? <==> AllMapped(chars, layout)
  {
    if chars != [] {
      MapCharsAccepts(chars[1..], layout);
      assert forall i :: 0 <= i < |chars| ==> chars[i] == if i == 0 then chars[0] else chars[1..][i - 1];
    }
  }

  /** A trigger without `&` that names no special key is accepted exactly when it splits into characters
      that the layout maps. */
  lemma AcceptedTriggers(expr: string, layout: Layout)
    requires '&' !in expr && SpecialKey(expr).Err?
    ensures ParseTrigger(expr, layout).Ok? <==> SplitUtf8(expr).Ok? && AllMapped(SplitUtf8(expr).value, layout)
  {
    hide SpecialKey;
    if SplitUtf8(expr).Ok? {
      MapCharsAccepts(SplitUtf8(expr).value, layout);
    }
  }

  /** The trigger of the quick start, `hlo`, is not accepted: the layout maps no Latin letter. */
  lemma DocumentedTriggerIsRejected()
    ensures ParseTrigger("hlo", RussianQwerty()) == Err
  {
    hide SpecialKey, RussianQwerty;
    var expr := "hlo";
    RussianQwertyIsValid();
    assert !IsLayoutChar("h");
    HloIsNoKey();
    AcceptedTriggers(expr, RussianQwerty());
    assert expr[..1] == "h";
    if SplitUtf8(expr).Ok? {
      assert SplitUtf8(expr).value[0] == "h";
    }
  }

  lemma HloIsNoKey()
    ensures SpecialKey("hlo").Err?
  {
    hide NUMPAD_KEYS, FUNCTION_KEYS, NAVIGATION_KEYS, EDITING_KEYS;
    OtherInitial("hlo");
    NoNavigation();
  }

  lemma NoNavigation()
    ensures "hlo" !in NAVIGATION_KEYS && "hlo" !in EDITING_KEYS
  {
  }

  lemma WordIsTrimmed(name: string)
    requires IsKeyName(name)
    ensures Trimmed(name) && '&' !in name
  {
  }

  lemma FindFirst(front: string, rest: string)
    requires '&' !in front
    ensures Find(front + ("&" + rest), '&') == |front|
  {
    var s := front + ("&" + rest);
    assert s[|front|] == '&' && s[..|front|] == front;
    FindAt(s, '&', |front|);
  }

  lemma OneAsciiChar(key: string, layout: Layout)
    requires |key| == 1 && key[0] as int < 128
    ensures SplitUtf8(key) == Ok([key])
    ensures MapChars([key], layout) == if key in layout then Ok([layout[key]]) else Err
  {
    assert key[..1] == key && key[1..] == "" && SplitUtf8("") == Ok([]);
    assert [key] + [] == [key];
    assert [key][1..] == [] && MapChars([], layout) == Ok([]);
    assert key in layout ==> [layout[key]] + [] == [layout[key]];
  }

  /** In front of any key expression `Mod &` adds the modifier and changes nothing else. */
  lemma ModifierBefore(front: string, gap: string, key: string, layout: Layout)
    requires '&' !in front && All(gap, IsBlank) && Trimmed(key) && '&' !in key
    ensures ParseTrigger(front + ("&" + (gap + key)), layout)
            == var r := ParseTrigger(key, layout);
               if r.Err? then Err else Ok((r.value.0, ModifierPart(Trim(front))))
  {
    hide SpecialKey, ModifierKey, Trim, Find, SplitUtf8, MapChars;
    var expr := front + ("&" + (gap + key));
    FindFirst(front, gap + key);
    assert expr[..|front|] == front && expr[|front| + 1..] == gap + key;
    TrimDecorated(gap, key, "");
    assert gap + key + "" == gap + key;
    assert Find(key, '&') == |key|;
    if |key| == 1 && key[0] as int < 128 {
      OneAsciiChar(key, layout);
    }
  }

  /** Whatever a modifier name asks for is one of the keys whose state is kept. */
  lemma NamedModifiersAreKept(name: string)
    requires ModifierKey(name).Ok?
    ensures ModifierKey(name).value in {29, 56, 42, 125}
  {
  }

  /** `Mod & Key` asks for the key and the modifier; a name that is no modifier asks for nothing, and the
      trigger then matches without one. */
  lemma ModifierTrigger(modifier: string, key: string, layout: Layout)
    requires Trimmed(modifier) && '&' !in modifier && SpecialKey(key).Ok?
    ensures ParseTrigger(modifier + (" " + ("&" + (" " + key))), layout)
            == Ok(([SpecialKey(key).value], if ModifierKey(modifier).Ok? then [ModifierKey(modifier).value] else []))
    ensures ParseTrigger(key, layout) == Ok(([SpecialKey(key).value], []))
  {
    hide SpecialKey, ModifierKey, Trim, Find, IsKeyName;
    SpecialKeyNames(key);
    WordIsTrimmed(key);
    var expr := modifier + (" " + ("&" + (" " + key)));
    var front := modifier + " ";
    assert expr == front + ("&" + (" " + key));
    FindFirst(front, " " + key);
    assert expr[..|front|] == front && expr[|front| + 1..] == " " + key;
    TrimDecorated("", modifier, " ");
    assert "" + modifier + " " == front;
    TrimDecorated(" ", key, "");
    assert " " + key + "" == " " + key;
  }

  /** The loop over the characters of a trigger. */
  method MapTriggerChars(chars: seq<string>, layout: Layout) returns (r: Result<seq<int>>)
    ensures r == MapChars(chars, layout)
  {
    var keys := [];
    assert chars[0..] == chars;
    BehindNothing(MapChars(chars, layout));
    for i := 0 to |chars|
      invariant MapChars(chars, layout) == Behind(keys, MapChars(chars[i..], layout))
    {
      assert chars[i..][0] == chars[i] && chars[i..][1..] == chars[i + 1..];
      if chars[i] !in layout {
        return Err;
      }
      BehindOne(keys, layout[chars[i]], MapChars(chars[i + 1..], layout));
      keys := keys + [layout[chars[i]]];
    }
    assert chars[|chars|..] == [] && keys + [] == keys;
    r := Ok(keys);
  }
}
