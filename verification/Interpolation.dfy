/** Macro variables and `Context::interpolate` (src/commands/IfCommand.cpp:17-231). */
module Interpolation {
  import opened Text
  import opened Arithmetic
  import opened ArithmeticTrees

  /** The names that read the clock instead of a stored value. */
  const TIME_VARIABLES: set<string> := {
    "A_Now", "A_NowUTC", "A_YYYY", "A_Year", "A_Year_Now", "A_MM", "A_Mon", "A_Month_Now",
    "A_DD", "A_MDay", "A_Day_Now", "A_WDay", "A_YDay", "A_Hour", "A_Hour_Now", "A_Min",
    "A_Minute_Now", "A_Sec", "A_Second_Now", "A_MSec", "A_TickCount"
  }

  /** What the clock answers to the k-th look-up of a name. */
  type Clock = (nat, string) -> string

  /** `get_variable_str`. */
  function StringVariable(strs: map<string, string>, clock: Clock, k: nat, name: string): string {
    if name in TIME_VARIABLES then clock(k, name)
    else if name in strs then strs[name]
    else ""
  }

  predicate IsNameChar(c: char) { c != '%' && !IsSpace(c) }

  /** A match of `%([^%\s]+)%` at the front of a text. */
  datatype Reference = NoReference | Reference(name: string, rest: string)

  function MatchReference(s: string): (m: Reference)
    ensures m.Reference? ==> s == "%" + m.name + "%" + m.rest
    ensures m.Reference? ==> m.name != "" && All(m.name, IsNameChar)
  {
    if s == "" || s[0] != '%' then NoReference
    else
      var n := Run(s[1..], IsNameChar);
      if n == 0 || n == |s| - 1 || s[n + 1] != '%' then NoReference
      else
        assert s == "%" + s[1..][..n] + "%" + s[n + 2..];
        Reference(s[1..][..n], s[n + 2..])
  }

  /** Phase 1; `k` counts the references replaced so far. */
  function Substitute(s: string, k: nat, strs: map<string, string>, clock: Clock): string
    decreases |s|
  {
    if s == "" then ""
    else
      var m := MatchReference(s);
      if m.Reference? then StringVariable(strs, clock, k, m.name) + Substitute(m.rest, k + 1, strs, clock)
      else [s[0]] + Substitute(s[1..], k, strs, clock)
  }

  /** Both phases. */
  function Interpolate(input: string, strs: map<string, string>, clock: Clock): string {
    Evaluate(Substitute(input, 0, strs, clock))
  }

  /** Both phases as C++ runs them: where 64-bit arithmetic overflows the language leaves the result
      undefined, and `undefined` stands for whatever comes out. */
  function InterpolateOr(input: string, strs: map<string, string>, clock: Clock, undefined: string): string {
    if PassesDefined(Substitute(input, 0, strs, clock), MAX_PASSES) then Interpolate(input, strs, clock) else undefined
  }

  // ---- templates -----------------------------------------------------------

  datatype Segment = Literal(text: string) | Variable(name: string)

  ghost predicate ValidSegment(g: Segment) {
    match g
    case Literal(t) => '%' !in t
    case Variable(n) => n != "" && All(n, IsNameChar)
  }

  ghost predicate ValidTemplate(t: seq<Segment>) { forall i :: 0 <= i < |t| ==> ValidSegment(t[i]) }

  function PrintTemplate(t: seq<Segment>): string {
    if t == [] then ""
    else
      match t[0]
      case Literal(text) => text + PrintTemplate(t[1..])
      case Variable(name) => "%" + (name + ("%" + PrintTemplate(t[1..])))
  }

  /** Every variable replaced by its value, once. */
  function FillTemplate(t: seq<Segment>, k: nat, strs: map<string, string>, clock: Clock): string {
    if t == [] then ""
    else
      match t[0]
      case Literal(text) => text + FillTemplate(t[1..], k, strs, clock)
      case Variable(name) =>
        (if name in TIME_VARIABLES then clock(k, name) else if name in strs then strs[name] else "")
        + FillTemplate(t[1..], k + 1, strs, clock)
  }

  /** The names that read the clock all start with `A_`. */
  lemma TimeVariablesAreMarked(name: string)
    requires name in TIME_VARIABLES
    ensures "A_" <= name
  {
  }

  /** `%name%` is the value the name was last given, or nothing. */
  lemma StoredValue(name: string, k: nat, strs: map<string, string>, clock: Clock)
    requires name != "" && All(name, IsNameChar) && !("A_" <= name)
    ensures Substitute("%" + (name + "%"), k, strs, clock) == if name in strs then strs[name] else ""
  {
    hide MatchReference, TIME_VARIABLES;
    if name in TIME_VARIABLES {
      TimeVariablesAreMarked(name);
    }
    ReferenceMatches(name, "");
    assert "%" + "" == "%";
    var value := StringVariable(strs, clock, k, name);
    assert Substitute("", k + 1, strs, clock) == "" && value + "" == value;
  }

  lemma {:induction false} LiteralCopied(text: string, rest: string, k: nat, strs: map<string, string>, clock: Clock)
    requires '%' !in text
    ensures Substitute(text + rest, k, strs, clock) == text + Substitute(rest, k, strs, clock)
  {
    if text == "" {
      assert text + rest == rest;
    } else {
      assert (text + rest)[0] == text[0];
      assert (text + rest)[1..] == text[1..] + rest;
      LiteralCopied(text[1..], rest, k, strs, clock);
    }
  }

  lemma ReferenceMatches(name: string, rest: string)
    requires name != "" && All(name, IsNameChar)
    ensures MatchReference("%" + (name + ("%" + rest))) == Reference(name, rest)
  {
    var s := "%" + (name + ("%" + rest));
    assert s[1..] == name + ("%" + rest);
    RunAppend(name, "%" + rest, IsNameChar);
    assert s[|name| + 1] == '%' && s[|name| + 2..] == rest;
  }

  /** Scanning a printed template gives each variable its value exactly once; a `%` inside a value
      is never taken for a reference. */
  lemma {:induction false} SubstituteTemplate(t: seq<Segment>, k: nat, strs: map<string, string>, clock: Clock)
    requires ValidTemplate(t)
    ensures Substitute(PrintTemplate(t), k, strs, clock) == FillTemplate(t, k, strs, clock)
  {
    if t != [] {
      hide MatchReference;
      assert ValidSegment(t[0]);
      match t[0]
      case Literal(text) =>
        SubstituteTemplate(t[1..], k, strs, clock);
        LiteralCopied(text, PrintTemplate(t[1..]), k, strs, clock);
      case Variable(name) =>
        SubstituteTemplate(t[1..], k + 1, strs, clock);
        ReferenceMatches(name, PrintTemplate(t[1..]));
    }
  }

  /** From template to final text: when filling the template gives the text of a document, the
      document is evaluated (as in `(%A_Hour%+8):%A_Min%`). */
  lemma InterpolateTemplate(t: seq<Segment>, d: Document, strs: map<string, string>, clock: Clock)
    requires ValidTemplate(t) && ValidDocument(d) && DocumentDepth(d) <= MAX_PASSES
    requires FillTemplate(t, 0, strs, clock) == PrintDocument(d)
    ensures Interpolate(PrintTemplate(t), strs, clock) == RenderDocument(d)
  {
    hide Evaluate;
    SubstituteTemplate(t, 0, strs, clock);
    EvaluateDocument(d);
  }

  /** `m` is the first reference at or after `from`, and stands at `pos`; without one `pos` is the end. */
  ghost predicate IsNextReference(s: string, from: nat, pos: nat, m: Reference) {
    && from <= pos <= |s|
    && (forall i :: from <= i < pos ==> MatchReference(s[i..]).NoReference?)
    && if pos < |s| then m.Reference? && m == MatchReference(s[pos..]) else m.NoReference?
  }

  // ---- the class -------------------------------------------------------------

  class Context {
    var ints: map<string, int>
    var strs: map<string, string>

    constructor ()
      ensures ints == map[] && strs == map[]
    {
      ints, strs := map[], map[];
    }

    method GetVariable(name: string) returns (value: int)
      ensures value == if name in ints then ints[name] else 0
    {
      if name in ints {
        value := ints[name];
      } else {
        value := 0;
      }
    }

    method SetVariable(name: string, value: int)
      modifies this`ints
      ensures ints == old(ints)[name := value]
    {
      ints := ints[name := value];
    }

    method SetVariableStr(name: string, value: string)
      modifies this`strs
      ensures strs == old(strs)[name := value]
    {
      strs := strs[name := value];
    }

    /** The search of the first loop: the next reference at or after `from`. */
    static method NextReference(s: string, from: nat) returns (pos: nat, m: Reference)
      requires from <= |s|
      ensures IsNextReference(s, from, pos, m)
    {
      pos := from;
      while pos < |s|
        invariant from <= pos <= |s|
        invariant forall i :: from <= i < pos ==> MatchReference(s[i..]).NoReference?
      {
        m := MatchReference(s[pos..]);
        if m.Reference? {
          return;
        }
        pos := pos + 1;
      }
      m := NoReference;
    }

    /** Phase 1 as the source runs it, with `last` and `afterVars`. */
    method SubstituteVariables(input: string, clock: Clock) returns (afterVars: string)
      ensures afterVars == Substitute(input, 0, strs, clock)
    {
      hide MatchReference, StringVariable, Substitute, IsNextReference;
      afterVars := "";
      var last, k := 0, 0;
      assert input[0..] == input;
      var pos, m := NextReference(input, last);
      while m.Reference?
        invariant last <= |input| && IsNextReference(input, last, pos, m)
        invariant afterVars + Substitute(input[last..], k, strs, clock) == Substitute(input, 0, strs, clock)
        decreases |input| - last, if m.Reference? then 1 else 0
      {
        OneReference(input, last, pos, m, k, strs, clock);
        ghost var done, copied, value := afterVars, input[last..pos], StringVariable(strs, clock, k, m.name);
        afterVars := afterVars + input[last..pos];
        afterVars := afterVars + StringVariable(strs, clock, k, m.name);
        last, k := |input| - |m.rest|, k + 1;
        ghost var later := Substitute(input[last..], k, strs, clock);
        assert done + copied + value + later == done + (copied + (value + later));
        pos, m := NextReference(input, last);
      }
      NoMoreReferences(input, last, pos, m, k, strs, clock);
      afterVars := afterVars + input[last..];
    }

    method InterpolateText(input: string, clock: Clock, undefined: string) returns (result: string)
      ensures result == InterpolateOr(input, strs, clock, undefined)
    {
      hide Evaluate, PassesDefined;
      var afterVars := SubstituteVariables(input, clock);
      if PassesDefined(afterVars, MAX_PASSES) {
        result := EvaluateText(afterVars);
      } else {
        result := undefined;
      }
    }
  }

  /** The text up to the next reference, its value, and the substitution of what follows. */
  lemma OneReference(s: string, last: nat, pos: nat, m: Reference, k: nat, strs: map<string, string>, clock: Clock)
    requires IsNextReference(s, last, pos, m) && m.Reference?
    ensures last <= pos < |s| && |m.rest| < |s| - pos
    ensures var next := |s| - |m.rest|;
            Substitute(s[last..], k, strs, clock)
               == s[last..pos] + (StringVariable(strs, clock, k, m.name) + Substitute(s[next..], k + 1, strs, clock))
  {
    hide MatchReference, StringVariable, Substitute;
    FromNextReference(s, last, pos, k, strs, clock);
    AtReference(s, pos, k, strs, clock);
  }

  /** Behind the last reference everything is copied. */
  lemma NoMoreReferences(s: string, last: nat, pos: nat, m: Reference, k: nat, strs: map<string, string>, clock: Clock)
    requires IsNextReference(s, last, pos, m) && m.NoReference?
    ensures last <= |s| && Substitute(s[last..], k, strs, clock) == s[last..]
  {
    hide MatchReference, StringVariable, Substitute;
    FromNextReference(s, last, pos, k, strs, clock);
    EmptyInput(k, strs, clock);
    assert s[pos..] == "" && s[last..pos] + "" == s[last..];
  }

  lemma EmptyInput(k: nat, strs: map<string, string>, clock: Clock)
    ensures Substitute("", k, strs, clock) == ""
  {
  }

  lemma AtReference(s: string, pos: nat, k: nat, strs: map<string, string>, clock: Clock)
    requires pos < |s| && MatchReference(s[pos..]).Reference?
    ensures var m := MatchReference(s[pos..]);
            var next := |s| - |m.rest|;
            && pos < next <= |s| && m.rest == s[next..]
            && Substitute(s[pos..], k, strs, clock)
               == StringVariable(strs, clock, k, m.name) + Substitute(s[next..], k + 1, strs, clock)
  {
    hide MatchReference;
    var m := MatchReference(s[pos..]);
    assert s[pos..][|m.name| + 2..] == m.rest;
    assert s[pos..][|m.name| + 2..] == s[pos + |m.name| + 2..];
  }

  lemma SubstituteStep(s: string, k: nat, strs: map<string, string>, clock: Clock)
    requires s != "" && MatchReference(s).NoReference?
    ensures Substitute(s, k, strs, clock) == [s[0]] + Substitute(s[1..], k, strs, clock)
  {
    hide MatchReference, StringVariable;
  }

  lemma {:induction false} FromNextReference(s: string, last: nat, pos: nat, k: nat, strs: map<string, string>, clock: Clock)
    requires last <= pos <= |s|
    requires forall i :: last <= i < pos ==> MatchReference(s[i..]).NoReference?
    ensures Substitute(s[last..], k, strs, clock) == s[last..pos] + Substitute(s[pos..], k, strs, clock)
    decreases pos - last
  {
    hide MatchReference, Substitute, StringVariable;
    if last < pos {
      SubstituteStep(s[last..], k, strs, clock);
      assert s[last..][1..] == s[last + 1..];
      FromNextReference(s, last + 1, pos, k, strs, clock);
      assert s[last..pos] == [s[last]] + s[last + 1..pos];
    }
  }
}
