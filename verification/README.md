# AHKUnix: a verified model

AHKUnix is a hotstring daemon. A thread reads key events, forwards them and looks for the trigger that was
typed; a worker thread executes the macro of that trigger; a third thread reloads the script. The macros
come from a script file, which a line scanner, a block parser and two small brace notations read, and their
text goes through `%variable%` substitution and a textual evaluator of parenthesised arithmetic.

The project models these parts and proves what they promise. It is written in the form of the sources: what
they compute by expressions and recursion is a function, what they do step by step is a method with loops,
and objects whose methods update fields are classes. Every such method is proved to do what a specification
function says, and the properties are lemmas about those functions.

| file | part |
|---|---|
| `Text`, `Decimal`, `Keys`, `BraceText` | trimming, searching, numbers, key names, the text inside braces |
| `Arithmetic`, `ArithmeticTrees`, `ArithmeticLimits`, `ArithmeticSafety`, `ArithmeticTightness` | the sixteen rewriting passes, against a recursive evaluator; progress and overflow on every text |
| `Interpolation` | macro variables, `%name%` substitution, both phases together |
| `SendInput`, `SendInputCommand`, `Replacement` | the two readers of the `{Key n}` notation and their agreement |
| `ScriptLines`, `ScriptLayout` | text to normalised lines, and what layout and letter case do not change |
| `ScriptParser`, `ScriptRoundTrip`, `ScriptPrinter`, `ScriptImage`, `ScriptIgnored` | normalised lines to command trees and back; which trees have a text, and which lines make no difference |
| `Conditions`, `Macro`, `Variables` | conditions, what executing a macro does between two loads of the stop flag, and which command and which text sees which variable |
| `MacroSafety`, `MacroPrefix`, `MacroPlain`, `MacroSequences` | stopped runs, earlier and later stops, the plain execution, what sequences send and how long a macro sleeps |
| `Desktop`, `MacroWorker` | the virtual keyboard, the clipboard, and the methods that run a macro on them |
| `Matching` | the key ring and the choice of a hotstring |
| `DaemonModel`, `DaemonSafety`, `DaemonJobs`, `DaemonGaps`, `Daemon` | the three threads as a state machine, its invariants, runs that follow their macros, when a reload and a shutdown are clean, and the methods of the daemon |
| `Trigger`, `TriggerErasure`, `HotkeyLines` | UTF-8, the layout, trigger expressions, the erasing of a typed trigger, and hotkey lines, which erase nothing |
| `FileScan`, `FileSections`, `FileText` | the scan of a script file, what a file means section by section, and what its lines are, said of their text |

How the model is set up:

- A `char` of a `string` is one byte. Character classes are those of the "C" locale, and `\s` of the regular
  expressions is the same class as `std::isspace`. The regular expressions are written as scanners.
- An exception is a `Result` that is `Err`, or `None`; the text of messages is not modelled.
- Random draws, the clock, the counter files, what each load of the stop flag sees, which writes to the keyboard
  device and to the clipboard throw, and what undefined arithmetic gives are the functions of an `Env`; the
  theorems hold for every `Env`.
- A device call that throws ends the macro. It is logged as a `Failed` effect, and what it had written stays in the
  history of the devices.
- One step of `DaemonModel` is one critical section, one load of the stop flag or one call without shared
  state. A run is any sequence of enabled steps, so every interleaving of the three threads is a run. In the state
  machine itself a job may load the flag or return at any time, so its theorems cover more runs than the daemon
  has; `DaemonJobs` speaks of the runs in which a job returns exactly when its macro has nothing left to do.
- A `History` beside the state records what happened; no thread reads it.

What the code does that a reader might not expect, each stated by a member:

- A result next to a digit forms a longer literal in the next pass, so literals in the int range do not make
  phase 2 safe from 64-bit overflow on every text (`GluedDigitsOverflow`). They do on documents, that is
  expressions inside text without `(` (`DocumentDefined`), and on every text in which no parenthesis touches a
  digit or another parenthesised text from outside (`UngluedIsSafe`); no clause of that condition can be dropped
  (`EveryClauseIsNeeded`).
- A reload stops the macros before it parses and swaps; a job of the old script typed in between starts under
  the new script (`OldJobStartsAfterReload`). That happens if and only if a job is queued or about to be submitted
  at the swap (`ReloadIsClean`); otherwise every job that starts is one of the new script
  (`CleanReloadRunsNewScript`).
- A job can also start between the entry of `stop_macro_worker` and its first critical section
  (`JobStartsWhileClosing`), if and only if one is queued at the entry (`ClosingIsClean`).
- A key event that the device fails to write can leave a key held; which one is exact (`FailedTapHolds`,
  `FailedPasteHolds`).
- A hotstring with tail keys but without text only erases its trigger: tail keys are sent behind a text only
  (`UnstoppedMacro`).
- `{}}` is no escape, although both readers list `}` among their escapes: the brace ends at its first `}`, and an
  empty brace is an error (`ClosingBraceIsNoEscape`).
- A number stored by `Random` is seen by conditions only, and a count stored by `name++` by `%name%` only
  (`RandomStores`, `IncrementStores`).
- A line that is no command is passed over without a message, and can be left out of any block
  (`LineMeans`, `IgnoredLineChangesNothing`); but in front of the brace that an If waits for it is an error, and in
  front of an `else` it ends the block (`NotBeforeItsBrace`, `NotBeforeElse`).
- A line `::trigger::text` is split at the wrong place; the options must not be empty (`OptionsAreNeeded`,
  `EmptyOptions`).
- The trigger `hlo` of the quick start in the repository's own `README.md:110` is not accepted: the only
  layout maps Russian letters and digits (`DocumentedTriggerIsRejected`).

One more difference is stated by no member, because the wait is not part of the model: the repository's
`README.md:64` says that pasting blocks for 75 ms, and `src/Clipboard.cpp:85` waits 120 ms.

## Model

| member | source | states |
|---|---|---|
| Text.TrimText | src/StringUtil.cpp:5-16 | the two loops of `trim` compute `Trim` |
| Text.TrimDecorated | src/StringUtil.cpp:5-16 | text that neither starts with a blank nor ends with a blank or line end is what `trim` finds between blanks and trailing bytes |
| Text.TrimDecomposes | src/StringUtil.cpp:5-16 | every string is its trim between blanks and trailing bytes, and the trim has neither at its ends |
| Decimal.ToStringRoundTrip | src/commands/IfCommand.cpp:199-218 | the decimal text of every integer is an integer text and reads back as that integer |
| Decimal.LeadingZero | src/commands/IfCommand.cpp:199-203 | zeros in front do not change a number |
| Decimal.ScanIntAppend | src/commands/IfCommand.cpp:178 | `-?\d+` on an integer text followed by anything but a digit takes exactly that text |
| Arithmetic.TruncDivCharacterized | src/commands/IfCommand.cpp:210 | the division is the one of C++: quotient and remainder with the sign of the dividend, uniquely |
| Arithmetic.SmallOperandsDefined | src/commands/IfCommand.cpp:199-210 | for operands of at most 2 to the 31 in absolute value every operator stays inside 64 bits |
| Arithmetic.ExactIsMeaning | src/commands/IfCommand.cpp:205-210 | for each sign a number is what the sign means if and only if the code computes it |
| Arithmetic.ReduceIsValue | src/commands/IfCommand.cpp:199-216 | the number that replaces a match is the value of the operation |
| Arithmetic.NextMatch | src/commands/IfCommand.cpp:190-193 | the iterator finds the leftmost match at or behind a position, or none |
| Arithmetic.FromNextMatch | src/commands/IfCommand.cpp:197 | text in which no match starts is kept in place by a pass |
| Arithmetic.PassAtMatch | src/commands/IfCommand.cpp:199-219 | at a match a pass writes the number and goes on behind the match, so matches do not overlap |
| Arithmetic.ReplacementOf | src/commands/IfCommand.cpp:199-216 | the number of a match is the int nearest to what its sign means on its operands: `+`, `-` and `*` of integers, the quotient whose remainder is smaller than the divisor and has the sign of the dividend, 0 for a division by zero; an operand of more than 64 bits counts as 0 |
| Arithmetic.RunPass | src/commands/IfCommand.cpp:186-221 | the loop over the matches computes `Pass` and reports whether there was a match |
| Arithmetic.EvaluateText | src/commands/IfCommand.cpp:179-228 | the loop of at most sixteen passes computes `Evaluate` |
| Arithmetic.PassWithoutMatch | src/commands/IfCommand.cpp:224 | a pass without a match leaves the text as it is, so stopping early changes nothing |
| ArithmeticTrees.PassCollapses | src/commands/IfCommand.cpp:186-221 | in any context one pass turns the text of an expression into the text of the expression with all innermost operations replaced by the values of that evaluator |
| ArithmeticTrees.PassOnDocument | src/commands/IfCommand.cpp:186-221 | the same for expressions inside ordinary text; there is a match exactly when an operation is left |
| ArithmeticTrees.MatchIsOperation | src/commands/IfCommand.cpp:178 | whatever the pattern matches is the text of an operation on two numerals with one of the four signs |
| ArithmeticTrees.EvaluateDocument | src/commands/IfCommand.cpp:171-228 | phase 2 gives the text with the values of a recursive evaluator, which is defined on the sign characters and shares no operation with the rewriting, if and only if no expression is nested deeper than sixteen |
| ArithmeticTrees.DocumentDefined | src/commands/IfCommand.cpp:199-210 | with int-range literals no pass over a document overflows 64 bits |
| ArithmeticLimits.PassLowersOpen | src/commands/IfCommand.cpp:183-225 | on every text a pass never adds a `(` and removes one when it finds a match |
| ArithmeticLimits.EvaluateSettles | src/commands/IfCommand.cpp:183-225 | a text with at most sixteen `(` ends without anything reducible, and evaluating again changes nothing |
| ArithmeticLimits.IntPassDefined | src/commands/IfCommand.cpp:199-210 | a pass whose operands are in the int range does not overflow |
| ArithmeticLimits.GluedDigitsOverflow | src/commands/IfCommand.cpp:199-218 | a text with int-range literals whose second pass overflows |
| ArithmeticSafety.MatchEnd | src/commands/IfCommand.cpp:178 | a match ends with `)` |
| ArithmeticSafety.SmallPassDefined | src/commands/IfCommand.cpp:199-210 | a pass over a text whose runs of digits are at most 2 to the 31 does not overflow |
| ArithmeticSafety.PassUnglued | src/commands/IfCommand.cpp:186-221 | a pass keeps parentheses apart from digits and from each other |
| ArithmeticSafety.PassSmall | src/commands/IfCommand.cpp:186-221 | on such a text a pass keeps all runs of digits small |
| ArithmeticSafety.UngluedIsSafe | src/commands/IfCommand.cpp:183-225 | on such a text no pass overflows, however many there are; both conditions can be checked before the call |
| ArithmeticTightness.EveryClauseIsNeeded | src/commands/IfCommand.cpp:199-218 | without any one of the three clauses a text of small numbers meets the condition and its passes overflow |
| ArithmeticSafety.GluedIsRejected | src/commands/IfCommand.cpp:199-218 | the overflowing text does not meet the condition |
| Interpolation.SubstituteTemplate | src/commands/IfCommand.cpp:153-169 | scanning the text of a template gives every variable its value once, and values are not scanned again |
| Interpolation.StoredValue | src/commands/IfCommand.cpp:42-146 | `%name%` is the value the name was last given, or nothing; the names that read the clock start with `A_` |
| Interpolation.InterpolateTemplate | src/commands/IfCommand.cpp:151-231 | a template that fills to a document of depth at most sixteen becomes the evaluated document |
| Interpolation.Context.GetVariable | src/commands/IfCommand.cpp:17-21 | the integer of a name, 0 when there is none |
| Interpolation.Context.SetVariable | src/commands/IfCommand.cpp:23-26 | the map of integers with one name changed |
| Interpolation.Context.SetVariableStr | src/commands/IfCommand.cpp:37-40 | the map of strings with one name changed |
| Interpolation.Context.NextReference | src/commands/IfCommand.cpp:156-161 | the leftmost `%name%` at or behind a position, or none |
| Interpolation.Context.SubstituteVariables | src/commands/IfCommand.cpp:153-169 | the loop of phase 1 computes `Substitute` |
| Interpolation.Context.InterpolateText | src/commands/IfCommand.cpp:151-231 | both phases one after the other; where a 64-bit operation overflows, the result is whatever the undefined arithmetic gives |
| BraceText.ReadNameAndCount | src/commands/SendInputCommand.cpp:102-105 | a name and any number are read back by the stream, the number as the nearest int |
| BraceText.ReadNameOnly | src/commands/SendInputCommand.cpp:102-105 | a name alone leaves the count as it was; what starts like no number makes it 0 |
| SendInput.ParsePrint | src/commands/SendInputCommand.cpp:49-115 | every canonical part list is what its printed text parses to |
| SendInput.ParseCanonical | src/commands/SendInputCommand.cpp:49-115 | every accepted sequence parses to a canonical list: no empty text, no two texts in a row, known keys, counts of at least 1 |
| SendInput.ParseNormalizes | src/commands/SendInputCommand.cpp:49-115 | parsing, printing and parsing again gives the same list |
| SendInputCommand.Sequence.AppendTextPart | src/commands/SendInputCommand.cpp:51-67 | text is appended, merged with a text part at the end |
| SendInputCommand.Sequence.ParseSequence | src/commands/SendInputCommand.cpp:49-115 | the loop over positions accepts what `Parse` accepts and builds the same list |
| Replacement.ParseReplacement | src/AhkParser.cpp:517-629 | the loop over brackets computes `Read`: the text, and the tail keys in order |
| Replacement.ReadersAgree | src/AhkParser.cpp:517-629 | both readers accept a text with the same text and the same keys if and only if every brace is an escape or a key both know with a count both keep |
| Replacement.CountsAreRead | src/AhkParser.cpp:551-616 | `{name n}` is n taps in a replacement, once for the keys without a count, and at least one tap in `SendInput`; without n it is one |
| Replacement.EscapesStandForThemselves | src/AhkParser.cpp:544-549 | `{!}`, `{+}`, `{^}`, `{#}` and `{{}` stand for their character in both readers |
| Replacement.ClosingBraceIsNoEscape | src/commands/SendInputCommand.cpp:86-108 | `{}}` is an error in both readers |
| ScriptLines.LowercaseRange | src/commands/ScriptParser.cpp:107-113 | a range of the line in lower case, the rest unchanged |
| ScriptLines.NormalizeCommandAt | src/commands/ScriptParser.cpp:115-137 | whether a command word stands at a position in any letter case, and the line with it in lower case |
| ScriptLines.NormalizeElseIf | src/commands/ScriptParser.cpp:162-170 | the `if` behind an `else` in lower case |
| ScriptLines.NormalizeCommandTokens | src/commands/ScriptParser.cpp:139-176 | the first command of the table that fits is put in lower case |
| ScriptLines.PushProcessedLine | src/commands/ScriptParser.cpp:187-206 | what one raw line adds to the lines |
| ScriptLines.PreprocessLines | src/commands/ScriptParser.cpp:179-232 | the loop over the bytes computes `Preprocess` |
| ScriptLayout.NormalizeCommand | src/commands/ScriptParser.cpp:139-176 | a command word typed in any case becomes lower case, and the text behind it is kept |
| ScriptLayout.NormalizeElseIfLine | src/commands/ScriptParser.cpp:162-170 | the same for `else if`, whatever white space stands between the words |
| ScriptLayout.PreprocessBlock | src/commands/ScriptParser.cpp:179-232 | indentation, trailing blanks, blank lines, comments, braces that share a line and the case of command words leave no trace in the lines |
| ScriptLayout.ReturnsIgnored | src/commands/ScriptParser.cpp:208-213 | carriage returns anywhere change nothing |
| ScriptLayout.LastBreakIgnored | src/commands/ScriptParser.cpp:226-229 | a line break at the end changes nothing |
| ScriptParser.ParseBlockLines | src/commands/ScriptParser.cpp:383-422 | the loop computes `Block`, and never moves the index back or past the end |
| ScriptParser.SkipOpenBrace | src/commands/ScriptParser.cpp:344-351 | an opening brace on its own line is required unless there was one on the line |
| ScriptParser.ParseIfChain | src/commands/ScriptParser.cpp:318-381 | it computes `Chain` and strictly advances the index when it succeeds |
| ScriptParser.ParseElse | src/commands/ScriptParser.cpp:356-378 | it computes `ElsePart` |
| ScriptParser.ParseBlockText | src/commands/ScriptParser.cpp:424-429 | it computes `ParseActionBlock` |
| ScriptParser.BlockLeavesTail | src/commands/ScriptParser.cpp:383-422 | on every list of lines, what a block leaves is a tail of the lines |
| ScriptParser.ChainLeavesTail | src/commands/ScriptParser.cpp:318-381 | the same for an If |
| ScriptParser.TopLevelStopsAtElse | src/commands/ScriptParser.cpp:383-429 | the top level stops before the end only at a stray `else` |
| ScriptRoundTrip.LinesRoundTrip | src/commands/ScriptParser.cpp:318-422 | the lines of every tree, with braces inline or on their own line and `else if` or a nested If, parse to the tree and none is left |
| ScriptRoundTrip.TextRoundTrip | src/commands/ScriptParser.cpp:179-429 | every text whose raw lines mean the lines of a tree parses to the tree |
| ScriptPrinter.ScriptRoundTrips | src/commands/ScriptParser.cpp:179-429 | every command tree has a text that parses to it, commands and arguments included |
| ScriptPrinter.ArgumentsAre | src/commands/ScriptParser.cpp:234-253 | arguments stand behind the word with or without one comma, between any blanks |
| ScriptPrinter.StoiReads | src/commands/ScriptParser.cpp:255-267 | a Sleep reads white space, a sign and all digits that follow, whatever stands behind them, and throws without digits or outside the int range |
| ScriptImage.ParsedIsPrintable | src/commands/ScriptParser.cpp:179-429 | every tree that an action block parses to is a tree that has a printed form |
| ScriptImage.ValidIffParsed | src/commands/ScriptParser.cpp:179-429 | some text parses to a tree if and only if the tree is valid: canonical sequences, int-range numbers, identifiers, trimmed one-line arguments and conditions |
| ScriptIgnored.LineMeans | src/commands/ScriptParser.cpp:234-316 | a line is passed over if and only if it starts with `sendmessage`, `input` or `return` or with no command word and is not `name++`; it is a Cancel if and only if its word is `cancel` or `pause`; it counts if and only if it is `name++` |
| ScriptIgnored.BlockAlike | src/commands/ScriptParser.cpp:383-422 | one more ignored line anywhere in any lines, but in front of a lone `{` or an `else`, changes neither the commands nor whether there is an error |
| ScriptIgnored.IgnoredLineChangesNothing | src/commands/ScriptParser.cpp:424-429 | the same on the text of a block |
| ScriptIgnored.NotBeforeItsBrace | src/commands/ScriptParser.cpp:344-351 | in front of the brace that an If waits for such a line is an error |
| ScriptIgnored.NotBeforeElse | src/commands/ScriptParser.cpp:356-358 | in front of an `else` it leaves the If without it, and the block ends there |
| Conditions.VariableBack | src/commands/IfCommand.cpp:303-327 | a comparison of a variable, with any white space, is read as its name, its number and a comparator that decides what its sign says, even for a variable called `random` |
| Conditions.DrawBack | src/commands/IfCommand.cpp:273-301 | the same for `random(a, b)` in any letter case, with its two bounds |
| Conditions.ConditionShape | src/commands/IfCommand.cpp:273-329 | a text is a condition if and only if it is one of those two |
| Variables.ConditionDecides | src/commands/IfCommand.cpp:258-330 | for each of `=`, `==`, `!=`, `>=`, `<=`, `>`, `<` the verdict is that comparison of the variable, 0 when it is not set, or of the draw between the smaller and the larger bound, with the number |
| Variables.SpacedComparison | src/commands/IfCommand.cpp:303-327 | the verdict on `name sign n` for every name, sign and int |
| Variables.OtherConditionsThrow | src/commands/IfCommand.cpp:329 | a condition throws if and only if it is not written in one of the two ways |
| Variables.BranchIsTaken | src/commands/IfCommand.cpp:332-347 | an If executes its first branch when what its condition says is true, and else its second one |
| Variables.BranchIsTakenChecked | src/commands/IfCommand.cpp:349-376 | so does the interruptible execution when its load sees no stop; otherwise it does nothing |
| Variables.RandomStores | src/commands/ScriptParser.cpp:37-52 | `Random` stores one draw between the smaller and the larger bound under its name among the integers, and does nothing else |
| Variables.IncrementStores | src/commands/IncrementCommand.cpp:23-61 | `name++` stores the new count as text under its name among the strings, and does nothing else |
| Variables.MarkdownShows | src/commands/ShowMarkdownCommand.cpp:13-21 | `ShowMarkdown` shows its path and writes no variable |
| Variables.DrawnNumberIsCompared | src/commands/IfCommand.cpp:303-327 | behind `Random` a condition on its name speaks of the number drawn |
| Variables.CountIsFilledIn | src/commands/IncrementCommand.cpp:60 | behind `name++` the text `%name%` becomes the new count, and no integer variable has changed |
| MacroWorker.Worker.LoadFlag | src/Daemon.cpp:273-276 | one load of the stop flag, recorded |
| MacroWorker.Worker.TapOnce | src/UinputKeyboard.cpp:93-99 | a tap on the device and in the log, or a failed one and its exception |
| MacroWorker.Worker.PasteOnce | src/Clipboard.cpp:74-100 | a paste on the devices and in the log, or a failed one and its exception |
| MacroWorker.Worker.SleepInterruptible | src/commands/SendInputCommand.cpp:19-35 | slices of at most 10 ms, a load before each and one at the end |
| MacroWorker.Worker.RunSleep | src/commands/SleepCommand.cpp:25-40 | the sliced sleep of a Sleep command |
| MacroWorker.Worker.TapRepeatedly | src/commands/SendInputCommand.cpp:131-142 | load, tap and sleep for every repetition, up to the first stop or failing write |
| MacroWorker.Worker.RunSend | src/commands/SendInputCommand.cpp:117-154 | the loop over the parts of a sequence |
| MacroWorker.Worker.PasteInterpolated | src/commands/SendInputCommand.cpp:151-152 | the text of a part is interpolated with the variables of the context and pasted |
| MacroWorker.Worker.WriteVariable | src/commands/IfCommand.cpp:23-40 | an effect without a device call, and the variable of the context it sets |
| MacroWorker.Worker.EvaluateCondition | src/commands/IfCommand.cpp:258-330 | the verdict on a condition, or its exception |
| MacroWorker.Worker.RunCommand | src/commands/IfCommand.cpp:349-376 | one command with its branches, and the default check-then-execute of the others |
| MacroWorker.Worker.RunCommands | src/Daemon.cpp:297-306 | the loop over commands |
| MacroWorker.Worker.RunTailKey | src/Daemon.cpp:325-335 | the repetitions of one tail key |
| MacroWorker.Worker.RunLegacyReplacement | src/Daemon.cpp:316-336 | paste and tail keys |
| MacroWorker.Worker.RunMacro | src/Daemon.cpp:267-314 | a whole macro, up to its end, a stop or an exception: the log is the one the theorems are about, and the devices got its events |
| MacroSafety.AtMostOneEffectAfterStop | src/Daemon.cpp:267-336 | when every load behind a point of a run sees the flag, at most one tap, paste or variable write follows that point |
| MacroSafety.StopLimitsEffects | src/Daemon.cpp:267-336 | when every load but the first `m` sees the flag, at most one effect follows the m-th load |
| MacroPrefix.EarlierStopIsPrefix | src/Daemon.cpp:267-336 | the effects of a macro are a prefix of those of the same macro stopped later; a run that no load has stopped is the same run |
| MacroPrefix.StoppedRunIsPrefix | src/Daemon.cpp:267-336 | when the flag stays set once set, the effects are a prefix of those of the unstopped run with the same draws, at every nesting depth |
| MacroPlain.ExecuteIsPlain | include/ahkunix/commands/Command.hpp:21-31 | never stopped, the interruptible execution of a command equals its plain one |
| MacroPlain.ExecuteAllIsPlain | src/commands/IfCommand.cpp:332-376 | the same for lists of commands: effects, variables, draws, time slept and exception |
| MacroPlain.UnstoppedErase | src/Daemon.cpp:269-283 | an unstopped macro starts with one backspace for each trigger key, or with none; or a backspace fails and the macro ends with it |
| MacroPlain.UnstoppedMacro | src/Daemon.cpp:267-336 | all that an unstopped macro does while the devices work: backspaces, then the plain commands, or the text and then the tail keys in order |
| MacroPlain.TailKeysNeedText | src/Daemon.cpp:310-313 | without text the tail keys are not sent |
| MacroSequences.SequenceSends | src/commands/SendInputCommand.cpp:156-175 | a sequence taps each key as often as its count says and pastes each text with its variables and sums filled in, in order |
| MacroSequences.SequenceTakes | src/commands/SendInputCommand.cpp:156-175 | it pauses 5 ms behind each tap and nowhere else |
| MacroSequences.StopEndsSleep | src/commands/SleepCommand.cpp:25-40 | with the flag set from the m-th load on, a Sleep goes on for at most 10 ms for each load before |
| MacroSequences.StopEndsPause | src/commands/SendInputCommand.cpp:19-35 | the same for the pauses between keys |
| MacroSequences.SleepIsSliced | src/commands/SleepCommand.cpp:25-40 | unstopped, a Sleep takes its whole time and loads the flag once for each 10 ms begun |
| Desktop.ComboReleases | src/UinputKeyboard.cpp:123-135 | a combination leaves all its keys released and the clipboard alone |
| Desktop.TraceIsClean | src/Clipboard.cpp:74-100 | after any list of effects of which none failed no key is held and the clipboard is as it was |
| Desktop.CleanFinish | src/Daemon.cpp:267-336 | while the devices work, every macro run, finished or stopped at any load, ends like that |
| Desktop.TraceIsSeen | src/UinputKeyboard.cpp:93-135 | what applications get with each report: every tap is one stroke with nothing held, every paste is Control and then V with the text in the clipboard |
| Desktop.MacroIsSeen | src/Daemon.cpp:267-336 | the same for every macro run, finished or stopped at any load |
| Desktop.TraceKeepsClip | src/Clipboard.cpp:82-99 | also when key events fail the clipboard ends as it was, as long as it can be written |
| Desktop.FailedTapHolds | src/UinputKeyboard.cpp:93-99 | a failing tap leaves its key held exactly when the press was written and the release was not |
| Desktop.FailedPasteHolds | src/UinputKeyboard.cpp:123-135 | which keys a failing paste leaves held, for every write that can fail |
| Desktop.Devices.Emit | src/UinputKeyboard.cpp:57-65 | one write, or its exception |
| Desktop.Devices.EmitAll | src/UinputKeyboard.cpp:93-99 | events are written in order up to the first failing write |
| Desktop.Devices.TapKey | src/UinputKeyboard.cpp:93-99 | the four writes of a tap, up to the first failing one |
| Desktop.Devices.PressAll | src/UinputKeyboard.cpp:125-127 | the modifiers go down in order, up to the first failing write |
| Desktop.Devices.ReleaseAll | src/UinputKeyboard.cpp:131-133 | the modifiers go up in reverse order, up to the first failing write |
| Desktop.Devices.HoldComboAndTap | src/UinputKeyboard.cpp:123-135 | the events of a combination, up to the first failing write |
| Desktop.Devices.SetText | src/Clipboard.cpp:26-47 | the clipboard holds the text, or the write fails and leaves what it leaves |
| Desktop.Devices.PasteTextSynchronously | src/Clipboard.cpp:74-100 | save, set, paste, restore, with every failure: of the first clipboard write, of a key event, of the restoring write, and of both of the last |
| Matching.RingBuffer.PushKey | src/RingBuffer.cpp:7-12 | the oldest key leaves a full ring, the new one is last |
| Matching.RingBuffer.EndsWithSequence | src/RingBuffer.cpp:14-26 | whether the keys end with a sequence |
| Matching.RingBuffer.Clear | src/RingBuffer.cpp:28-30 | the ring is empty |
| Matching.PushKeepsLast | src/RingBuffer.cpp:7-12 | the ring is always the end of the history of pushes |
| Matching.EndsWithLast | src/RingBuffer.cpp:14-26 | a trigger that fits in the ring ends the ring if and only if it ends the history |
| Matching.SidesAreEqual | src/Daemon.cpp:364-385 | asking for the left or the right modifier is the same |
| Matching.ModifierPairs | src/Daemon.cpp:133-136 | the modifiers are the left and right Control, Alt, Shift and Meta keys, each paired with its other side, and no other key is one |
| Matching.BestOfIsBest | src/Daemon.cpp:347-409 | the fold finds the longest match, the first one on ties, exactly when something matches |
| Matching.BestIsUnique | src/Daemon.cpp:347-409 | there is one such match |
| Matching.BestOnRing | src/Daemon.cpp:345-417 | the choice on the ring is the choice on the whole history when every trigger fits |
| Matching.CapacityFits | src/Daemon.cpp:419-427 | every trigger fits in the ring made for the script |
| Matching.ComputeRingCapacity | src/Daemon.cpp:419-427 | the loop computes that capacity |
| Matching.FindMatch | src/Daemon.cpp:345-417 | the loops over hotstrings and modifiers compute the choice |
| DaemonModel.MatcherInvariant | src/Daemon.cpp:61-185 | over every run the ring is the end of the codes of exactly the events `EV_KEY` with value 1 read since the last reset, the pressed set is the modifiers held down since the load, and every loaded trigger fits |
| DaemonModel.FindRefines | src/Daemon.cpp:345-417 | in every reachable state `find_match` chooses a hotstring if and only if the specification on all events read chooses it: its trigger ends the presses since the last reset, its modifiers are held on either side, and it is the longest, then the first |
| DaemonModel.FindStarts | src/Daemon.cpp:165-184 | in every reachable state a search submits the job of the chosen hotstring, or stops everything when one of its commands is a Cancel, or does nothing when no hotstring is chosen |
| DaemonModel.OnlyPressesMatch | src/Daemon.cpp:149-163 | a press enters the ring and is searched for; any other event leaves the ring and the tasks and starts no search |
| DaemonModel.FindFollowsPress | src/Daemon.cpp:160-163 | over every run a search happens only when the last event read is a press |
| DaemonSafety.JobsInvariant | src/Daemon.cpp:187-265 | the splitting of the submitted jobs and the running job are kept by every run |
| DaemonSafety.InterruptsNeverQueued | src/Daemon.cpp:165-184 | no job with a top-level Cancel is ever submitted |
| DaemonSafety.Conservation | src/Daemon.cpp:165-265 | in every reachable state the submitted jobs are, in order, started or dropped ones and then the queue; each starts at most once, first in first out, one at a time; none in the queue is an interrupt |
| DaemonSafety.FlagStaysSet | src/Daemon.cpp:201-249 | from a stop until the job returns the flag stays set in every interleaving, and every load sees it |
| DaemonSafety.QueuedJobsNeverStart | src/Daemon.cpp:201-249 | a job in the queue at the moment of a stop never starts |
| DaemonSafety.JobStartsClear | src/Daemon.cpp:236-250 | in every reachable state the first job of the queue starts with the flag clear |
| DaemonSafety.NothingSeenWithoutStop | src/Daemon.cpp:230-336 | as long as nothing stops it no load of a job sees the flag set, whatever happened before it started |
| DaemonSafety.SeenInvariant | src/Daemon.cpp:187-249 | over every run, what the loads of a job have seen never goes from set to clear |
| DaemonSafety.JobDoesPrefix | src/Daemon.cpp:230-336 | whatever the threads do, what the running job has done, which is what it does when its next load sees the flag, is a prefix of its unstopped run |
| DaemonSafety.JobGrows | src/Daemon.cpp:230-336 | what a job has done at one moment is a prefix of what it has done at any later moment |
| DaemonJobs.FinishedIsWhole | src/Daemon.cpp:252-336 | a macro that makes no further load has done all it does, whatever the flag would have held later |
| DaemonJobs.StartedJobsAreWhole | src/Daemon.cpp:230-336 | in every run in which jobs return when their macros have finished, a started job that no longer runs has done the whole of its macro, and without a stop among its loads the unstopped one |
| DaemonSafety.StopEndsJob | src/Daemon.cpp:201-336 | after a stop the running job does at most one more effect |
| DaemonSafety.NoStartDuringShutdown | src/Daemon.cpp:212-245 | from the first critical section of the shutdown on no job starts, and the flag of the running job stays set |
| DaemonSafety.WorkerLeaves | src/Daemon.cpp:216-245 | behind the second critical section an idle worker can only leave its loop, and then the shutdown can join it |
| DaemonSafety.SubmitIsNeverRejected | src/Daemon.cpp:187-199 | the worker is never closed when a job is submitted, so every submitted job is queued |
| DaemonSafety.EveryKeyIsForwarded | src/Daemon.cpp:125-163 | of all events read exactly the key events are forwarded, in order, before anything is matched, queued or stopped for them |
| DaemonSafety.NoPressServesTwoMatches | src/Daemon.cpp:165-184 | no key press belongs to two matches |
| DaemonGaps.OldJobStartsAfterReload | src/Daemon.cpp:61-77 | a run in which a job of the old script starts after the reload |
| DaemonGaps.ReloadIsClean | src/Daemon.cpp:61-77 | in every reachable state before a swap, some continuation starts a job found before it if and only if a job is queued or about to be submitted |
| DaemonGaps.CleanReloadRunsNewScript | src/Daemon.cpp:61-77 | without such a job, every job that starts up to the next swap is the job of a hotstring of the new script |
| DaemonGaps.ClosingIsClean | src/Daemon.cpp:212-245 | in every reachable state at the entry of the shutdown, some continuation starts a job if and only if one is queued |
| DaemonGaps.JobStartsWhileClosing | src/Daemon.cpp:212-245 | a run in which a job starts after the shutdown was entered |
| Daemon.HandleEventIsRun | src/Daemon.cpp:125-185 | one undisturbed event is the corresponding steps of the state machine |
| Daemon.Daemon.constructor | src/Daemon.cpp:46-54 | a ring for the script, nothing pressed, nothing queued |
| Daemon.Daemon.RecordKey | src/Daemon.cpp:127-156 | the critical section that records modifiers and presses |
| Daemon.Daemon.FindMatchingHotstring | src/Daemon.cpp:345-417 | the chosen hotstring |
| Daemon.Daemon.IsInterruptMacro | src/Daemon.cpp:338-343 | whether a top-level command is a Cancel |
| Daemon.Daemon.SubmitMacro | src/Daemon.cpp:187-199 | the job is queued unless the worker is closed |
| Daemon.Daemon.RequestMacroStop | src/Daemon.cpp:201-210 | the queue is empty and the flag set |
| Daemon.Daemon.StopMacroWorker | src/Daemon.cpp:212-220 | both critical sections of the shutdown |
| Daemon.Daemon.TakeJob | src/Daemon.cpp:236-250 | the first job, with the flag cleared, or the end of the loop |
| Daemon.Daemon.HandleOneEvent | src/Daemon.cpp:125-185 | what one event does to matcher and tasks |
| Daemon.Daemon.ReloadScript | src/Daemon.cpp:61-77 | the stop comes first and is kept when the script does not parse; then script, ring and pressed keys are replaced |
| Trigger.SplitChars | src/AhkParser.cpp:486-515 | the loop computes `SplitUtf8` |
| Trigger.SplitConcat | src/AhkParser.cpp:486-515 | well-formed characters (section 4 of RFC 3629) put together are split into exactly those characters |
| Trigger.SplitRejoins | src/AhkParser.cpp:486-515 | whatever is accepted, no byte is lost and no piece is empty |
| Trigger.RussianQwertyIsValid | src/LayoutProfile.cpp:10-63 | every character of the layout is a well-formed digit or non-ASCII character |
| Trigger.TriggerOfChars | src/AhkParser.cpp:82-106 | a trigger of mapped characters has one key for each, in order, and no modifier |
| Trigger.ModifierTrigger | src/AhkParser.cpp:25-80 | `Mod & Key` asks for that key and modifier; an unknown modifier name is ignored |
| Trigger.ModifierBefore | src/AhkParser.cpp:25-80 | in front of any key expression `Mod &` adds the modifier and changes nothing else |
| Trigger.NamedModifiersAreKept | src/LayoutProfile.cpp:170-182 | every modifier name stands for a key whose state the daemon keeps |
| Trigger.AcceptedTriggers | src/AhkParser.cpp:82-106 | a plain trigger is accepted if and only if it splits into mapped characters |
| Trigger.DocumentedTriggerIsRejected | README.md:110 | the trigger of the quick start is not accepted |
| Trigger.MapTriggerChars | src/AhkParser.cpp:93-104 | the loop over the characters |
| TriggerErasure.LineOfChars | src/AhkParser.cpp:109-153 | a line with options and a trigger of mapped characters gives an erasing hotstring with one key for each, if and only if its replacement is readable |
| TriggerErasure.OneBackspacePerChar | src/Daemon.cpp:267-283 | unstopped, the hotstring of such a line first sends one backspace for each character, unless one of them fails and ends the macro |
| HotkeyLines.SplitHotkey | src/AhkParser.cpp:133-144 | a line without a colon in front is split at its first `::` |
| HotkeyLines.LineOfHotkey | src/AhkParser.cpp:133-153 | `Key::replacement` and `Mod & Key::replacement`, for named keys and mapped characters, give that key, that modifier and that replacement, and erase nothing; they are accepted if and only if the replacement is readable |
| HotkeyLines.HotkeyRuns | src/Daemon.cpp:267-314 | unstopped, such a hotstring is its commands from the first one on, or its text and tail keys; no backspace comes first |
| HotkeyLines.OnlyColonLinesErase | src/AhkParser.cpp:149 | in every accepted script a hotstring erases its trigger if and only if its line starts with a colon |
| FileScan.FlushPending | src/AhkParser.cpp:271-282 | every pending trigger gets the body, in order |
| FileScan.PeekTrigger | src/AhkParser.cpp:367-378 | whether the next line that is no comment and not empty looks like a trigger |
| FileScan.CollectBlock | src/AhkParser.cpp:382-412 | the lines of a body, up to a `return` or a trigger outside braces |
| FileScan.JoinLines | src/AhkParser.cpp:427-435 | the lines with a line break between each two |
| FileScan.BuildTemplate | src/AhkParser.cpp:414-457 | a body is an action block when a `return` ends it or a line is an action, and a replacement otherwise |
| FileScan.Assign | src/AhkParser.cpp:307-324 | an assignment to a global variable |
| FileScan.ParseFile | src/AhkParser.cpp:156-484 | the scan that rewrites its own index ends, and its pending list gives every trigger the body found by looking ahead |
| FileSections.FileMeansSections | src/AhkParser.cpp:156-484 | a file of assignments, comments, one-line hotstrings and stacks gives one hotstring for each trigger line, in order; those of a stack share the body behind them; the globals are those of the assignments |
| FileSections.ScriptHotstrings | src/AhkParser.cpp:268-476 | on any file the hotstrings are the accepted trigger lines, one for each, in their order; each has its own replacement or the body behind it, and the triggers of a stack have the same body |
| FileSections.AcceptedInOrder | src/AhkParser.cpp:284-469 | the accepted triggers are lines that look like triggers, at strictly increasing positions |
| FileSections.OptionsAreNeeded | src/AhkParser.cpp:115-132 | a line `:options:trigger::text` is split as written if and only if options and trigger are not empty |
| FileSections.EmptyOptions | src/AhkParser.cpp:115-132 | `::trigger::text` is read as the trigger `text` that stands for `trigger::text` |
| FileText.ActionTextMeans | src/AhkParser.cpp:177-252 | a line is an action if and only if it is a lone brace or starts with one of ten command words in any letter case |
| FileText.TriggerLineMeans | src/AhkParser.cpp:192-231 | a line is a trigger line if and only if it is no action, has a `::`, and starts with a colon or has a name without braces and commas in front of its first `::` |
| FileText.PairMeans | src/AhkParser.cpp:287-301 | two bytes are found if and only if they stand side by side somewhere |
| FileText.CommentMeans | src/AhkParser.cpp:173-176 | which lines open a comment and which are one |
| FileText.AssignmentReads | src/AhkParser.cpp:307-324 | `name = value` gives the trimmed name the trimmed value, and is an assignment if and only if it has no `::` |
| FileText.AssignmentLine | src/AhkParser.cpp:286-324 | it is one of the file if and only if it is no comment either |
| FileText.GlobalIsFilledIn | src/AhkParser.cpp:307-324 | in a file the last assignment to a name decides what `%name%` becomes |
| FileText.ActionBody | src/AhkParser.cpp:414-447 | a body whose lines stand for a command tree is that tree, when a `return` ends it or one of its lines is an action |
| FileText.TextBody | src/AhkParser.cpp:414-452 | any other body is read as a text with tail keys |
| FileText.NestedBody | src/AhkParser.cpp:382-412 | lines whose lone braces are balanced, with neither a `return` nor a trigger line outside them, are one body up to the `return` behind them |

## Left out

- Arithmetic.EvaluateText: requires that no 64-bit operation overflows, because overflow of `long long` is undefined in C++; the function `Evaluate` is defined on every text, and `Interpolation.Context.InterpolateText` stands for every result that undefined arithmetic may give.
- ArithmeticLimits.IntPassDefined: goes one way only; whether operands outside the int range overflow depends on the operator, and `PassDefined` says it of each match.
- ArithmeticSafety.UngluedIsSafe: goes one way only; a text with glued digits may still stay inside 64 bits.
- Daemon.Daemon.StopMacroWorker: the two critical sections; waiting for the worker thread is the step `Join` of the state machine.
- Desktop.CleanFinish: for a clipboard that returns what was set and that nothing else writes.
- The events that the forwarding thread writes between two taps of a macro; each tap and each combination is atomic under the keyboard's mutex.
- evdev, uinput set-up, polling, signals, daemonising and the sockets of the control program: operating-system plumbing. A failing write of a forwarded event, which ends the daemon, is not modelled.
- The clipboard programs, process spawning and the search of PATH: foreign calls; the clipboard is one variable whose writes may fail.
- Wall-clock time, the random generator and the counter files: functions of the environment. Durations are counted in milliseconds; the wait during a paste is left out.
- Memory order: the loads and stores of the stop flag are taken as sequentially consistent.
- The second shutdown by the destructor, which repeats the steps of the first one on a closed worker.
- The sharing of one context object by all hotstrings: a macro starts with any variables, and those it leaves are those of its last state. `find_match` and `execute_macro` create a missing context; it starts empty.
- The command that ShowMarkdown gives to the shell, which is one effect; TextCommand, which no parser builds; `strict_mode`, which the preprocessing ignores.
- Reading the script file into lines; file names and line numbers in messages.
- `std::stoi`, `std::stoll` and stream extraction are modelled by what they return and when they fail, not by their implementation.
