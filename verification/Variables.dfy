/** What conditions and templates read of the variables, and which commands write them
    (src/commands/IfCommand.cpp:17-46 and 258-330, src/commands/ScriptParser.cpp:23-58,
    src/commands/IncrementCommand.cpp:23-67). */
module Variables {
  import opened Wrappers
  import opened Text
  import Decimal
  import opened Conditions
  import opened Macro
  import ScriptParser
  import Interpolation

  function Smaller(a: int, b: int): int { if a < b then a else b }

  function Larger(a: int, b: int): int { if a < b then b else a }

  // ---- conditions -------------------------------------------------------------------------

  /** What a written condition says: of the variable, 0 when nothing set it, or of the next draw between
      the smaller and the larger bound. */
  ghost predicate Says(w: Written, e: Env, draws: nat, ints: map<string, int>)
    requires w.Valid()
  {
    match w
    case Variable(_, name, tail) => Truth(tail.sign, if name in ints then ints[name] else 0, Number(tail.number))
    case Draw(_, _, _, low, _, _, high, _, tail) =>
      Truth(tail.sign, e.random(draws, Smaller(Number(low), Number(high)), Larger(Number(low), Number(high))),
            Number(tail.number))
  }

  /** A condition is evaluated to what its text says, for each of the seven signs. */
  lemma ConditionDecides(w: Written, e: Env, draws: nat, ints: map<string, int>)
    requires w.Valid()
    ensures Verdict(e, draws, ints, w.Text()) == Some(Says(w, e, draws, ints))
  {
    hide ParseCondition, Truth, Comparator.Holds, Written.Text, Number;
    if w.Variable? {
      VariableBack(w);
    } else {
      DrawBack(w);
    }
  }

  /** `name sign n` in plain sight. */
  lemma SpacedComparison(name: string, sign: string, n: int, e: Env, draws: nat, ints: map<string, int>)
    requires name != "" && IsWordStart(name[0]) && All(name, IsWord) && sign in SIGNS && Decimal.InInt(n)
    ensures Verdict(e, draws, ints, name + (" " + (sign + (" " + Decimal.ToString(n)))))
         == Some(Truth(sign, if name in ints then ints[name] else 0, n))
  {
    hide Truth, Verdict, Number, Decimal.ToString;
    var tail := Tail(" ", sign, " ", Decimal.ToString(n), "");
    var w := Variable("", name, tail);
    NumberOf(n);
    ConditionDecides(w, e, draws, ints);
    assert Decimal.ToString(n) + "" == Decimal.ToString(n) && "" + (name + tail.Text()) == name + tail.Text();
  }

  lemma NumberOf(n: int)
    requires Decimal.InInt(n)
    ensures Decimal.IsIntText(Decimal.ToString(n)) && Number(Decimal.ToString(n)) == n
  {
    hide Decimal.ToString;
    Decimal.ToStringRoundTrip(n);
  }

  /** Any other text throws. */
  lemma OtherConditionsThrow(s: string, e: Env, draws: nat, ints: map<string, int>)
    ensures Verdict(e, draws, ints, s) == None <==> !exists w: Written :: w.Valid() && s == w.Text()
  {
    hide ParseCondition, Written.Valid, Written.Text, Comparator.Holds;
    ConditionShape(s);
  }

  /** An If executes its first branch when the condition holds and its second one when it does not. */
  lemma BranchIsTaken(w: Written, first: seq<ScriptParser.Command>, second: seq<ScriptParser.Command>, e: Env, p: Plain)
    requires w.Valid()
    ensures var holds, p1 := Says(w, e, p.draws, p.ints), p.(draws := p.draws + 1);
            ExecutePlain(e, p, ScriptParser.If(w.Text(), first, second))
            == ExecuteAllPlain(e, p1, if holds then first else second)
  {
    hide Verdict, Written.Text, Written.Valid, Says, ExecuteAllPlain;
    ConditionDecides(w, e, p.draws, p.ints);
  }

  /** So does the interruptible execution, which looks at the flag first. */
  lemma BranchIsTakenChecked(w: Written, first: seq<ScriptParser.Command>, second: seq<ScriptParser.Command>, e: Env, st: State)
    requires w.Valid()
    ensures var holds, st1 := Says(w, e, st.draws, st.ints), AfterLoad(e, st);
            Execute(e, st, ScriptParser.If(w.Text(), first, second))
            == if e.stop(st.loads) then st1
               else ExecuteAll(e, st1.(draws := st.draws + 1), if holds then first else second)
  {
    hide Verdict, Written.Text, Written.Valid, Says, ExecuteAll;
    ConditionDecides(w, e, st.draws, st.ints);
  }

  // ---- the commands that write ----------------------------------------------------------------

  /** `random name, a, b` stores one draw between the smaller and the larger bound among the integers, for
      conditions; no string variable changes and nothing else happens. */
  lemma RandomStores(st: State, e: Env, name: string, a: int, b: int)
    ensures var v := e.random(st.draws, Smaller(a, b), Larger(a, b));
            Once(e, st, ScriptParser.Random(name, a, b))
            == st.(log := st.log + [Done(SetInt(name, v))], draws := st.draws + 1, ints := st.ints[name := v])
  {
  }

  /** `name++` stores the new count among the strings, for templates; no integer variable changes. */
  lemma IncrementStores(st: State, e: Env, name: string)
    ensures var text := Decimal.ToString(e.counter(st.draws, name));
            Once(e, st, ScriptParser.Increment(name))
            == st.(log := st.log + [Done(SetStr(name, text))], draws := st.draws + 1, strs := st.strs[name := text])
  {
    hide Decimal.ToString;
  }

  /** `showmarkdown path` shows the path and writes no variable; the other commands have no effect of this kind. */
  lemma MarkdownShows(st: State, e: Env, path: string)
    ensures Once(e, st, ScriptParser.ShowMarkdown(path))
         == st.(log := st.log + [Done(Show(path))], draws := st.draws + 1)
  {
  }

  /** After `random name, a, b` a condition on the name speaks of the number drawn. */
  lemma DrawnNumberIsCompared(w: Written, st: State, e: Env, a: int, b: int)
    requires w.Valid() && w.Variable?
    ensures var after := Once(e, st, ScriptParser.Random(w.name, a, b));
            Verdict(e, after.draws, after.ints, w.Text())
            == Some(Truth(w.tail.sign, e.random(st.draws, Smaller(a, b), Larger(a, b)), Number(w.tail.number)))
  {
    hide Truth, Verdict, Once, Written.Text, Written.Valid, Number;
    RandomStores(st, e, w.name, a, b);
    ConditionDecides(w, e, Once(e, st, ScriptParser.Random(w.name, a, b)).draws,
                     Once(e, st, ScriptParser.Random(w.name, a, b)).ints);
  }

  /** After `name++` the template `%name%` is the new count, but no condition sees it. */
  lemma CountIsFilledIn(name: string, st: State, e: Env, k: nat, clock: Interpolation.Clock)
    requires name != "" && All(name, Interpolation.IsNameChar) && !("A_" <= name)
    ensures var after := Once(e, st, ScriptParser.Increment(name));
            && Interpolation.Substitute("%" + (name + "%"), k, after.strs, clock)
               == Decimal.ToString(e.counter(st.draws, name))
            && after.ints == st.ints
  {
    hide Decimal.ToString, Once, Interpolation.Substitute;
    IncrementStores(st, e, name);
    var after := Once(e, st, ScriptParser.Increment(name));
    Interpolation.StoredValue(name, k, after.strs, clock);
  }
}
