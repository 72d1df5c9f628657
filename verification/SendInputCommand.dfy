/** `SendInputCommand::parse_sequence` as the source runs it: a position that moves over the
    sequence and a part list that grows at its end (src/commands/SendInputCommand.cpp:49-115). */
module SendInputCommand {
  import opened Wrappers
  import opened Text
  import opened BraceText
  import opened SendInput

  /** Text behind parts; it merges with a text part that is already there. */
  function AppendText(parts: seq<Part>, t: string): seq<Part> {
    if t == "" then parts
    else if parts != [] && parts[|parts| - 1].Chunk? then
      parts[..|parts| - 1] + [Chunk(parts[|parts| - 1].text + t)]
    else parts + [Chunk(t)]
  }

  function PrependPart(p: Part, q: seq<Part>): seq<Part> {
    if p.Chunk? then PrependText(p.text, q) else [p] + q
  }

  /** `parts` in front of `q`, merging text at the seam. */
  function Join(parts: seq<Part>, q: seq<Part>): seq<Part> {
    if parts == [] then q else Join(parts[..|parts| - 1], PrependPart(parts[|parts| - 1], q))
  }

  function JoinResult(parts: seq<Part>, r: Result<seq<Part>>): Result<seq<Part>> {
    match r
    case Err => Err
    case Ok(q) => Ok(Join(parts, q))
  }

  /** No empty text and no two text parts in a row. */
  ghost predicate Separated(parts: seq<Part>) {
    && (forall i :: 0 <= i < |parts| ==> parts[i].Chunk? ==> parts[i].text != "")
    && (forall i :: 0 <= i < |parts| - 1 ==> parts[i].Key? || parts[i + 1].Key?)
  }

  lemma JoinAppendedText(parts: seq<Part>, t: string, q: seq<Part>)
    ensures Join(AppendText(parts, t), q) == Join(parts, PrependText(t, q))
  {
    hide PrependText;
    if t == "" {
      assert PrependText(t, q) == q by { PrependNothing(q); }
    } else {
      var n := |parts|;
      var a := AppendText(parts, t);
      if parts != [] && parts[n - 1].Chunk? {
        PrependTwice(parts[n - 1].text, t, q);
        assert a[..|a| - 1] == parts[..n - 1];
      } else {
        assert a[..|a| - 1] == parts;
      }
    }
  }

  lemma PrependNothing(q: seq<Part>)
    ensures PrependText("", q) == q
  {
  }

  lemma JoinAppendedKey(parts: seq<Part>, key: Part, q: seq<Part>)
    requires key.Key?
    ensures Join(parts + [key], q) == Join(parts, [key] + q)
  {
    var a := parts + [key];
    assert a[..|a| - 1] == parts;
  }

  lemma {:induction false} JoinSeparated(parts: seq<Part>, q: seq<Part>)
    requires Separated(parts + q)
    ensures Join(parts, q) == parts + q
    decreases |parts|
  {
    var n := |parts|;
    if n == 0 {
      assert parts + q == q;
    } else {
      var all := parts + q;
      var q' := [parts[n - 1]] + q;
      assert all[n - 1].Chunk? ==> all[n - 1].text != "";
      if q != [] {
        assert all[n - 1].Key? || all[n - 1 + 1].Key?;
      }
      assert PrependPart(parts[n - 1], q) == q';
      assert parts[..n - 1] + q' == all;
      JoinSeparated(parts[..n - 1], q');
    }
  }

  lemma AppendSeparated(parts: seq<Part>, t: string)
    requires Separated(parts)
    ensures Separated(AppendText(parts, t))
  {
    var a := AppendText(parts, t);
    forall i | 0 <= i < |a| - 1 ensures a[i].Key? || a[i + 1].Key? {
      assert i < |parts| - 1 ==> parts[i].Key? || parts[i + 1].Key?;
    }
  }

  lemma ParseAtBrace(s: string, body: string, rest: string)
    requires s != "" && s[0] == '{' && ScanBrace(s) == Closed(body, rest)
    ensures IsEscape(body) ==> Parse(s) == MapText(body, Parse(rest))
    ensures !IsEscape(body) && KeyPart(body).Ok? && Parse(rest).Ok? ==>
              Parse(s) == Ok([KeyPart(body).value] + Parse(rest).value)
    ensures !IsEscape(body) && (KeyPart(body).Err? || Parse(rest).Err?) ==> Parse(s) == Err
  {
    hide KeyPart, PrependText;
  }

  lemma SeparatedKey(parts: seq<Part>, key: Part, r: Result<seq<Part>>)
    requires Separated(parts) && key.Key?
    ensures Separated(parts + [key])
    ensures r.Ok? ==> JoinResult(parts + [key], r) == JoinResult(parts, Ok([key] + r.value))
  {
    hide Join;
    if r.Ok? {
      JoinAppendedKey(parts, key, r.value);
    }
  }

  lemma JoinMapped(parts: seq<Part>, t: string, r: Result<seq<Part>>)
    requires Separated(parts)
    ensures JoinResult(AppendText(parts, t), r) == JoinResult(parts, MapText(t, r)) && Separated(AppendText(parts, t))
  {
    hide AppendText, PrependText, Join, Separated;
    AppendSeparated(parts, t);
    if r.Ok? {
      JoinAppendedText(parts, t, r.value);
    }
  }

  class Sequence {
    const sequence: string
    var parts: seq<Part>

    constructor (sequence: string)
      ensures this.sequence == sequence && parts == []
    {
      this.sequence := sequence;
      parts := [];
    }

    method AppendTextPart(t: string)
      modifies this`parts
      ensures parts == AppendText(old(parts), t)
    {
      if t == "" {
        return;
      }
      if parts != [] && parts[|parts| - 1].Chunk? {
        var last := parts[|parts| - 1];
        parts := parts[..|parts| - 1] + [Chunk(last.text + t)];
        return;
      }
      parts := parts + [Chunk(t)];
    }

    /** False stands for the exception of an unterminated brace or an unknown key. */
    method ParseSequence() returns (ok: bool)
      requires parts == []
      modifies this`parts
      ensures ok == Parse(sequence).Ok?
      ensures ok ==> parts == Parse(sequence).value
    {
      hide Parse, AppendText, Join, ScanBrace, KeyPart, IsEscape, Separated, MapText, PrependText, Find;
      var pos := 0;
      ok := true;
      assert sequence[0..] == sequence;
      JoinNothing(Parse(sequence));
      NothingSeparated();
      while pos < |sequence|
        invariant 0 <= pos <= |sequence| && Separated(parts)
        invariant Parse(sequence) == JoinResult(parts, Parse(sequence[pos..]))
      {
        var start := pos + Find(sequence[pos..], '{');
        ParsePlainUntil(sequence, pos, start);
        if start == |sequence| {
          JoinMapped(parts, sequence[pos..], Parse(""));
          assert sequence[start..] == "" && sequence[pos..start] == sequence[pos..];
          AppendTextPart(sequence[pos..]);
          pos := |sequence|;
          break;
        }
        JoinMapped(parts, sequence[pos..start], Parse(sequence[start..]));
        AppendTextPart(sequence[pos..start]);
        var brace := ScanBrace(sequence[start..]);
        if brace.Unterminated? {
          ParseUnterminated(sequence[start..]);
          ok := false;
          return;
        }
        ParseAtBrace(sequence[start..], brace.body, brace.rest);
        BraceEnd(sequence, start);
        var next := |sequence| - |brace.rest|;
        if IsEscape(brace.body) {
          JoinMapped(parts, brace.body, Parse(brace.rest));
          AppendTextPart(brace.body);
          pos := next;
          continue;
        }
        var key := KeyPart(brace.body);
        if key.Err? {
          ok := false;
          return;
        }
        KeyPartIsKey(brace.body);
        SeparatedKey(parts, key.value, Parse(brace.rest));
        parts := parts + [key.value];
        pos := next;
      }
      assert sequence[pos..] == "";
      ParseEmpty();
      assert parts + [] == parts;
      JoinSeparated(parts, []);
    }
  }

  lemma NothingSeparated()
    ensures Separated([])
  {
  }

  lemma ParseEmpty()
    ensures Parse("") == Ok([])
  {
  }

  lemma KeyPartIsKey(body: string)
    ensures KeyPart(body).Ok? ==> KeyPart(body).value.Key?
  {
  }

  lemma JoinNothing(r: Result<seq<Part>>)
    ensures JoinResult([], r) == r
  {
  }

  lemma ParseUnterminated(s: string)
    requires s != "" && s[0] == '{' && ScanBrace(s).Unterminated?
    ensures Parse(s) == Err
  {
  }

  lemma ParsePlainUntil(s: string, pos: nat, start: nat)
    requires pos <= |s| && start == pos + Find(s[pos..], '{')
    ensures start <= |s| && Parse(s[pos..]) == MapText(s[pos..start], Parse(s[start..]))
    ensures start < |s| ==> s[start] == '{'
  {
    hide Parse;
    assert s[pos..] == s[pos..start] + s[start..];
    assert forall k :: 0 <= k < start - pos ==> s[pos..start][k] == s[pos..][k];
    ParsePlain(s[pos..start], s[start..]);
  }
}
