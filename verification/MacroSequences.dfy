/** What a sequence sends, how long a macro sleeps, and how soon a sleep ends after a stop
    (src/Daemon.cpp:286-305, src/commands/SleepCommand.cpp:25-40,
    src/commands/SendInputCommand.cpp:117-154). */
module MacroSequences {
  import opened SendInput
  import Interpolation
  import opened Macro
  import opened MacroPlain
  import opened MacroSafety

  /** When the flag is set from load `m` on, a sleep goes on for at most ten milliseconds for each load
      before that, and no longer than it was asked to. */
  lemma {:induction false} StopEndsSleep(e: Env, st: State, ms: nat, m: nat)
    requires st.loads <= m && forall k: nat :: k >= m ==> e.stop(k)
    ensures st.slept <= SleepCommand(e, st, ms).slept <= st.slept + ms
    ensures SleepCommand(e, st, ms).slept <= st.slept + 10 * (m - st.loads)
    decreases ms
  {
    if ms > 0 && !Sees(e, st) {
      StopEndsSleep(e, AfterLoad(e, st).(slept := st.slept + Slice(ms)), ms - Slice(ms), m);
    }
  }

  /** The pauses between keys end as soon. */
  lemma {:induction false} StopEndsPause(e: Env, st: State, ms: nat, m: nat)
    requires st.loads <= m && forall k: nat :: k >= m ==> e.stop(k)
    ensures var (r, ok) := SleepChecked(e, st, ms);
            st.slept <= r.slept <= st.slept + ms && (ok ==> r.slept == st.slept + ms) && r.slept <= st.slept + 10 * (m - st.loads)
    decreases ms
  {
    if ms > 0 && !Sees(e, st) {
      StopEndsPause(e, AfterLoad(e, st).(slept := st.slept + Slice(ms)), ms - Slice(ms), m);
    }
  }

  /** Unstopped, a sleep takes its whole time and looks at the flag before each slice of ten milliseconds
      and before the rest. */
  lemma {:induction false} SleepIsSliced(e: Env, st: State, ms: nat)
    requires NeverStops(e)
    ensures var r := SleepCommand(e, st, ms); r.slept == st.slept + ms && r.loads == st.loads + (ms + 9) / 10
    decreases ms
  {
    if ms > 0 {
      SleepIsSliced(e, AfterLoad(e, st).(slept := st.slept + Slice(ms)), ms - Slice(ms));
    }
  }

  /** How many taps the keys of a sequence are. */
  function TapsIn(parts: seq<Part>): nat {
    if parts == [] then 0
    else (if parts[0].Key? && parts[0].count > 0 then parts[0].count else 0) + TapsIn(parts[1..])
  }

  /** A sequence pauses five milliseconds behind each tap of a key, and nowhere else. */
  lemma {:induction false} SequenceTakes(e: Env, p: Plain, parts: seq<Part>)
    requires Works(e) && !p.threw
    ensures var r := SendPartsPlain(e, p, parts); r.slept == p.slept + 5 * TapsIn(parts) && !r.threw
    decreases |parts|
  {
    hide TapRepeatPlain, PasteEffect, DeviceCall;
    if parts != [] {
      match parts[0]
      case Key(code, count) =>
        var n := if count < 0 then 0 else count;
        var fs := TapRepeatSends(e, p, code, n, 5);
        SequenceTakes(e, TapRepeatPlain(e, p, code, n, 5), parts[1..]);
      case Chunk(text) =>
        if text != "" {
          var f := PasteEffect(e, p.draws, p.strs, text);
          PasteIsPaste(e, p, text);
          WorkingCall(e, p.writes, p.sets, f);
        }
        SequenceTakes(e, if text == "" then p else PerformPlain(e, p, PasteEffect(e, p.draws, p.strs, text)), parts[1..]);
    }
  }

  /** What a sequence means: a key is tapped as often as its count says, and a text is pasted with its
      variables and sums filled in, each text with the clock of its own moment. */
  ghost function Meant(e: Env, draws: nat, strs: map<string, string>, parts: seq<Part>): seq<Effect>
    decreases |parts|
  {
    if parts == [] then []
    else
      match parts[0]
      case Key(code, count) => Taps(code, if count < 0 then 0 else count) + Meant(e, draws, strs, parts[1..])
      case Chunk(text) =>
        if text == "" then Meant(e, draws, strs, parts[1..])
        else
          [Paste(Interpolation.InterpolateOr(text, strs, ClockAt(e, draws), e.undefined(draws)))]
          + Meant(e, draws + 1, strs, parts[1..])
  }

  /** While the devices work a sequence sends its keys and texts in order, and no variable changes. */
  lemma {:induction false} SequenceSends(e: Env, p: Plain, parts: seq<Part>)
    requires Works(e) && !p.threw
    ensures var r := SendPartsPlain(e, p, parts);
            !r.threw && r.effects == p.effects + Meant(e, p.draws, p.strs, parts) && r.strs == p.strs && r.ints == p.ints
    decreases |parts|
  {
    hide TapRepeatPlain, PerformPlain, PasteEffect, Taps, Interpolation.InterpolateOr;
    if parts == [] {
      assert p.effects + [] == p.effects;
    } else if parts[0].Key? {
      var code, n := parts[0].code, if parts[0].count < 0 then 0 else parts[0].count;
      var fs := TapRepeatSends(e, p, code, n, 5);
      SequenceSends(e, TapRepeatPlain(e, p, code, n, 5), parts[1..]);
      assert p.effects + Taps(code, n) + Meant(e, p.draws, p.strs, parts[1..])
          == p.effects + (Taps(code, n) + Meant(e, p.draws, p.strs, parts[1..]));
    } else if parts[0].text == "" {
      SequenceSends(e, p, parts[1..]);
    } else {
      var f := PasteEffect(e, p.draws, p.strs, parts[0].text);
      TextSends(e, p, parts[0].text);
      SequenceSends(e, PerformPlain(e, p, f), parts[1..]);
      MeantText(e, p, parts);
      assert p.effects + [f] + Meant(e, p.draws + 1, p.strs, parts[1..])
          == p.effects + ([f] + Meant(e, p.draws + 1, p.strs, parts[1..]));
    }
  }

  lemma MeantText(e: Env, p: Plain, parts: seq<Part>)
    requires parts != [] && parts[0].Chunk? && parts[0].text != ""
    ensures Meant(e, p.draws, p.strs, parts)
         == [PasteEffect(e, p.draws, p.strs, parts[0].text)] + Meant(e, p.draws + 1, p.strs, parts[1..])
  {
    hide Interpolation.InterpolateOr, ClockAt;
  }

  lemma TextSends(e: Env, p: Plain, text: string)
    requires Works(e) && !p.threw
    ensures var f := PasteEffect(e, p.draws, p.strs, text);
            var r := PerformPlain(e, p, f);
            && r.effects == p.effects + [f] && r.draws == p.draws + 1 && r.strs == p.strs && r.ints == p.ints && !r.threw
  {
    hide PasteEffect, DeviceCall, Logged;
    PasteIsPaste(e, p, text);
    WorkingCall(e, p.writes, p.sets, PasteEffect(e, p.draws, p.strs, text));
  }

  lemma PasteIsPaste(e: Env, p: Plain, text: string)
    ensures PasteEffect(e, p.draws, p.strs, text).Paste?
  {
  }
}
