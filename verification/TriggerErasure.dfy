/** From a trigger line to the backspaces that erase the typed trigger
    (src/AhkParser.cpp:93-153, src/Daemon.cpp:267-283). */
module TriggerErasure {
  import opened Wrappers
  import Text
  import opened Macro
  import opened MacroPlain
  import MacroSafety
  import opened FileScan
  import opened FileSections
  import Replacement
  import Trigger

  /** A line `:options:trigger::replacement` whose trigger is made of characters of the layout. */
  lemma LineOfChars(options: string, chars: seq<string>, replacement: string, layout: Trigger.Layout)
    requires ':' !in options && options != "" && chars != []
    requires Trigger.ValidLayout(layout) && Trigger.AllMapped(chars, layout)
    ensures var r := ParseLine(OptionLine(options, Trigger.Concat(chars), replacement), layout);
            && (r.Ok? <==> Replacement.Read(replacement).Ok?)
            && (r.Ok? ==> r.value.modifiers == [] && r.value.job.eraseTrigger
                          && r.value.job.triggerKeys == Trigger.LayoutKeys(chars, layout))
  {
    hide SplitTrigger, OptionLine, Trigger.ParseTrigger, Trigger.IsTriggerByte;
    var trigger := Trigger.Concat(chars);
    assert forall i :: 0 <= i < |chars| ==> Trigger.IsLayoutChar(chars[i]);
    Trigger.BytesOfChars(chars);
    Trigger.TriggerByteStartsNoWord();
    assert Trigger.IsLayoutChar(chars[0]);
    OptionsAreNeeded(options, trigger, replacement);
    Text.TrimOfTrimmed(trigger);
    Trigger.TriggerOfChars(chars, layout);
    OptionLineParts(options, trigger, replacement);
  }

  /** An unstopped run of the job starts with `n` backspaces, or ends with a failing one before that. */
  ghost predicate Erases(e: Env, s: Start, job: Job, n: nat) {
    var fs := Effects(ExecuteMacro(e, Fresh(s), job).log);
    ErasesOrFails(fs, n) && (MacroSafety.Works(e) ==> Backspaces(n) <= fs)
  }

  /** Unstopped, the hotstring of such a line first sends one backspace for each character of its
      trigger, whatever its body is, unless the device throws during one of them. */
  lemma OneBackspacePerChar(options: string, chars: seq<string>, replacement: string, layout: Trigger.Layout, body: Template,
                            e: Env, s: Start)
    requires ':' !in options && options != "" && chars != []
    requires Trigger.ValidLayout(layout) && Trigger.AllMapped(chars, layout) && NeverStops(e)
    requires Replacement.Read(replacement).Ok?
    ensures var r := ParseLine(OptionLine(options, Trigger.Concat(chars), replacement), layout);
            && r.Ok?
            && Erases(e, s, r.value.job, |chars|) && Erases(e, s, WithBody(r.value, body).job, |chars|)
  {
    hide ParseLine, OptionLine, Effects, ExecuteMacro, Backspaces, ErasesOrFails, MacroSafety.Works;
    LineOfChars(options, chars, replacement, layout);
    var h := ParseLine(OptionLine(options, Trigger.Concat(chars), replacement), layout).value;
    UnstoppedErase(e, s, h.job);
    UnstoppedErase(e, s, WithBody(h, body).job);
  }
}
