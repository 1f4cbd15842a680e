# bevy_command_prompt console core in Dafny

This project models the decision logic of the `bevy_command_prompt` console
(a Rust/Bevy in-game command prompt). Everything is a pure function over
immutable values:

- **History navigation.** `set_from_history` is a state machine over one
  navigation state `(position, filtered, snapshot)` shared by the whole app.
  Up and Down walk through the history entries that start with the input as it
  was when navigation began. Enter resets the state (module `History`).
- **Input editing.** `delete_char` and `delete_word` on the edit line, and the
  two Backspace action registrations that choose between them by the Control
  keys (module `BasicInput`).
- **Action specifications.** The `ConsoleAction` builder, its `KeyInput` /
  `ModifierInput` conversions and `get_single` (module `ConsoleActions`). The
  keyboard matcher is not part of the model. A predicate `Fires` gives the
  documented reading of an action: an AND of OR groups, with excluded groups
  vetoing it.
- **Action registry.** `register_console_action` and the `ConsoleActionCache`,
  a map from action to observer entity, with ids drawn from a counter (modules
  `ActionRegistry`, `ActionsPlugin`).
- **Command dispatch.** `on_call_console_command` as a function from the
  registered commands, the prompt, the submitted line and the console id to
  the ordered list of effects it queues. Also `builtins`,
  `add_console_command` and `dispatch_cmd` (module `Commands`). `shlex::split`
  and clap's parser are function parameters.
- **Scroll-back view.** `ConsoleBufferView::{new, jump_to_bottom, resize,
  text}` and `Console::default` (module `Consoles`). Rust's `str::lines`,
  `split`, `join` and `char::is_whitespace` are modelled in module `Strings`.

Rust `usize` subtractions that would underflow panic in builds with overflow
checks (the debug profile); in release builds they wrap, and the view then
shows no buffer line (`Consoles.WrappedStartShowsNothing`). The model treats
the underflow as an error of the caller and makes the subtractions' order a
`requires` clause. An `unwrap` on a console lookup in the history action
becomes a `requires` clause too.

Some behaviour of the code is easy to misread, so the model states it as written:

- **History display.** At position `k` the code shows `filtered[len - k - 1]`,
  with the subtraction saturating at 0. So the first Up shows the
  second-newest match, and the newest is never shown when there are two
  matches or more. This is stated by `History.NewestMatchNeverShown`,
  `History.FirstUpShowsSecondNewest` and `History.GoHistoryWalk`.
- **Duplicate command names.** `add_console_command` files a command with
  `HashMap::insert`, so a second command of the same name silently replaces
  the first, with no error (`Commands.SameNameRegistrationReplaces`).
- **Unresolvable console ids.** `delete_char` and `delete_word` do nothing
  when the console id does not resolve. The history action `unwrap`s the
  lookup, so the model requires the console to exist there.
  `on_call_console_command` and the Clear builtin `unwrap` it too, but the
  model passes the console (or its prompt) in, so their missing-console panic
  is not represented.
- **One navigation state for all consoles.** The three `Local`s of
  `set_from_history` belong to the system, not to a console. This is the
  second finding below.

## Model

| member | source | states |
|---|---|---|
| `Strings.Lines` | src/ui/console.rs:76-78 | `str::lines` yields lines that never contain a newline |
| `Strings.LineCount` | src/ui/console.rs:122-123 | the line count `resize` is given is the number of '\n' plus one for unterminated trailing text |
| `Strings.LinesOfJoined` | src/ui/console.rs:78-83 | lines joined with "\n" and followed by "\n" read back as the same lines, when none ends in '\r' |
| `Strings.Split` | src/commands/events.rs:12 | `split(" ")` yields at least one piece, and no piece contains the separator |
| `Strings.JoinSplit` | src/commands/events.rs:12 | joining the pieces of `split` with the separator gives back the line: nothing is lost |
| `Strings.Join` | src/ui/console.rs:82 | Rust's `join`: the parts in order with the separator between consecutive ones |
| `Strings.IsWhitespace` | src/actions/actions/basic_input.rs:12 | `char::is_whitespace`: the Unicode White_Space code points (U+0009-U+000D, U+0020, U+0085, U+00A0, U+1680, U+2000-U+200A, U+2028, U+2029, U+202F, U+205F, U+3000) |
| `ConsoleActions.GetSingle` | src/actions/console_action.rs:62-71 | a result `Some(k)` means the keys are exactly `[[k]]`; `None` means they are not one group of one key |
| `ConsoleActions.GetSingleIff` | src/actions/console_action.rs:61-71 | `get_single` is `Some(k)` if and only if the keys are `[[k]]` |
| `ConsoleActions.ConversionShape` | src/actions/console_action.rs:106-140 | a single key becomes `[[k]]`, an array one OR group in order, a `Vec<Vec<_>>` passes unchanged, a 2..12-tuple one group per element in tuple order |
| `ConsoleActions.ConversionMeaning` | src/actions/console_action.rs:14-26 | a converted single key is satisfied iff that key is active, an array iff any element is, a tuple iff every element is |
| `ConsoleActions.NewFiresOnKeysAlone` | src/actions/console_action.rs:27-33 | `new` leaves modifiers and exclusions empty, so only the pressed keys decide whether it fires |
| `ConsoleActions.SettersLastCallWins` | src/actions/console_action.rs:40-59 | each setter replaces its field rather than appending: a second call keeps only the last argument |
| `ConsoleActions.SettersCommute` | src/actions/console_action.rs:40-59 | setters of different fields commute |
| `ConsoleActions.SettersReplaceOneField` | src/actions/console_action.rs:40-59 | each setter sets its own field from the conversion and leaves the other three fields as they were |
| `ConsoleActions.IntoGroup` | src/actions/console_action.rs:106-140 | the OR group one tuple element stands for: a single key is a one-key group, an array or a vector is the group of its keys (the same for modifiers, lines 166-196); `ConsoleActions.ConversionMeaning` states what it means for firing |
| `ConsoleActions.IntoGroups` | src/actions/console_action.rs:106-140 | the `From` conversions into `KeyInput`, and the same ones into `ModifierInput` (lines 166-196); their shapes are stated by `ConsoleActions.ConversionShape` |
| `ConsoleActions.New` | src/actions/console_action.rs:27-33 | `new`: the converted keys, with modifiers and both exclusion lists empty |
| `ConsoleActions.WithModifiers` | src/actions/console_action.rs:40-45 | `with_modifiers` replaces the required modifiers |
| `ConsoleActions.Without` | src/actions/console_action.rs:47-52 | `without` replaces the excluded keys |
| `ConsoleActions.WithoutModifiers` | src/actions/console_action.rs:54-59 | `without_modifiers` replaces the excluded modifiers |
| `ActionRegistry.Register` | src/actions/app_ext.rs:38-53 | the cache gains the action mapped to a fresh observer running the system; the cache is created if absent; other entries and all existing observers are unchanged |
| `ActionRegistry.LastRegistrationWins` | src/actions/app_ext.rs:43-51 | registering an equal action twice keeps the second observer in the cache; the first observer still exists, now unreachable from the cache |
| `ActionRegistry.EmptyWorld` | src/actions/app_ext.rs:43 | before any registration the cache reads as empty and the world is well formed |
| `ActionsPlugin.RegisterBuiltinActions` | src/actions/actions/mod.rs:12-14 | the built-in plugins add three distinct cache entries, history, delete-char and delete-word, each pointing at an observer running its own system |
| `ActionsPlugin.BuiltinSpecsDistinct` | src/actions/actions/mod.rs:12-14 | the history, delete-char and delete-word actions are pairwise different cache keys, so none overwrites another |
| `ActionsPlugin.RegisterKeepsOthers` | src/actions/app_ext.rs:38-53 | registering one action leaves every other action's cache entry, and the observer it points at, unchanged |
| `ActionsPlugin.RegisterThree` | src/actions/app_ext.rs:38-53 | three registrations of different actions each keep their own observer in the cache, and the world stays well formed |
| `BasicInput.DeleteChar` | src/actions/actions/basic_input.rs:5-9 | non-empty input loses exactly its last character; empty input stays empty |
| `BasicInput.DeleteCharUndoesTyping` | src/actions/actions/basic_input.rs:7 | deleting a character undoes appending it |
| `BasicInput.LastWhitespace` | src/actions/actions/basic_input.rs:12 | `rfind(char::is_whitespace)` finds a whitespace character with none after it, or reports that there is none |
| `BasicInput.DeleteWord` | src/actions/actions/basic_input.rs:10-15 | the result is always a prefix of the input |
| `BasicInput.DeleteWordLeavesTextBeforeLastWhitespace` | src/actions/actions/basic_input.rs:12-13 | with whitespace present, exactly the text before the last whitespace character remains; without, nothing remains |
| `BasicInput.DeleteWordUndoesTypingAWord` | src/actions/actions/basic_input.rs:12-13 | after a whitespace character and a word without whitespace, `delete_word` gives back the text before the whitespace |
| `BasicInput.DeleteCharAction` | src/actions/actions/basic_input.rs:5-9 | an unresolved console id changes nothing; otherwise only that console's input changes |
| `BasicInput.DeleteWordAction` | src/actions/actions/basic_input.rs:10-15 | an unresolved console id changes nothing; otherwise only that console's input changes |
| `BasicInput.BackspaceActionsPartition` | src/actions/actions/basic_input.rs:17-28 | with Backspace pressed exactly one of the two actions fires, chosen by whether a Control key is held; without it neither fires; the two actions are distinct cache keys |
| `BasicInput.DeleteCharSpec` | src/actions/actions/basic_input.rs:18-22 | the `delete_char` registration: Backspace, excluding either Control key |
| `BasicInput.DeleteWordSpec` | src/actions/actions/basic_input.rs:23-27 | the `delete_word` registration: Backspace, requiring either Control key |
| `History.Matching` | src/actions/actions/history.rs:27-35 | the filter is exactly the ascending list of indices of history entries that start with the snapshot |
| `History.NextPosition` | src/actions/actions/history.rs:41 | Up moves one step and saturates at the match count; Down moves back one step and saturates at 0 |
| `History.ShownIndex` | src/actions/actions/history.rs:45 | the filtered index shown at a non-zero position is always in bounds |
| `History.Navigate` | src/actions/actions/history.rs:25-48 | the first arrow snapshots the input and computes the filter, later arrows keep both; the position takes one saturating step capped at the match count; position 0 shows the snapshot, position k shows `history[filtered[len-k-1]]`; only the input changes |
| `History.Step` | src/actions/actions/history.rs:13-48 | Enter resets the state and leaves the console alone; any other non-arrow key changes nothing; arrows change only the input and keep the state usable |
| `History.StepKeepsTracking` | src/actions/actions/history.rs:13-47 | for one console's fixed history: from any state reachable on it, every key leads to a reachable state, and such states never index out of bounds on that console |
| `History.ArrowShowsAMatch` | src/actions/actions/history.rs:42-46 | after an arrow, the input is the snapshot or a history entry that starts with the snapshot |
| `History.UpAndDownSaturate` | src/actions/actions/history.rs:16-17 | from a reachable state, Up gives `min(position + 1, matches)` and Down gives `position - 1` saturating at 0 |
| `History.NoMatchRestoresSnapshot` | src/actions/actions/history.rs:41-43 | with no matching entry the position stays 0 and the snapshot is restored on every arrow |
| `History.DownUndoesUp` | src/actions/actions/history.rs:41-47 | below the top, Down after Up returns to the same state and shown input; above the bottom, Up after Down does |
| `History.NewestMatchNeverShown` | src/actions/actions/history.rs:45 | with two matches or more no position shows the newest match; position 1 shows the second-newest |
| `History.FirstUpShowsSecondNewest` | src/actions/actions/history.rs:27-46 | the first Up after a reset shows the second-newest match, the only match when there is one, or the unchanged input when there is none |
| `History.MatchingLast` | src/actions/actions/history.rs:29-34 | the filter of a longer history is the shorter history's filter plus the last index when that entry matches |
| `History.GoHistoryMatches` | src/actions/actions/history.rs:29-34 | in `["go build", "go test", "rust fmt"]` the entries starting with "go" are 0 and 1 |
| `History.GoHistoryWalk` | src/actions/actions/history.rs:41-47 | from "go", Up, Up, Down, Down show "go build" three times and then "go"; "go test" never appears |
| `History.SetFromHistory` | src/actions/actions/history.rs:6-49 | the first matched key decides; non-arrows leave every console alone, Enter resets the state and other non-arrows keep it; an arrow gives the state and input `History.Step` gives on the addressed console, and rewrites only that console's input |
| `History.SetFromHistoryShowsAMatch` | src/actions/actions/history.rs:25-46 | an arrow from a reachable state keeps it reachable, moves the position one saturating step, and writes into the addressed console the input the state shows: the snapshot or a history entry starting with it |
| `History.HistorySpecFiresOnItsKeys` | src/actions/actions/history.rs:51-56 | the history action fires when Up, Down or Enter is pressed, whatever is held, and has no single key |
| `History.HistorySpec` | src/actions/actions/history.rs:51-56 | the action `set_from_history` is registered for: one OR group of Up, Down and Enter |
| `History.SharedStateCrossesConsoles` | src/actions/actions/history.rs:9-11 | as written, Up on a console with matching history leaves a shared state that is valid there but points past the end of another console's empty history |
| `History.SetFromHistoryPerConsole` | src/actions/actions/history.rs:6-49 | with one navigation state per console, only the addressed console must exist; every console's state stays valid for its own history, other consoles' states are untouched, and arrows show the snapshot or a matching entry |
| `History.PerConsoleStatesStayApart` | src/actions/actions/history.rs:41-46 | with per-console states, Up on the first console then Up on the second leaves the second's input as it was and the first's state untouched |
| `Consoles.NewView` | src/ui/console.rs:59-66 | a new view belongs to the given console, starts at the top with an empty window, shows no line of any buffer, and so the console's text under it is only "\n", the prompt and the input |
| `Consoles.JumpToBottom` | src/ui/console.rs:99-104 | the window's last line becomes the buffer's last line; its size and console are kept |
| `Consoles.JumpToBottomIdempotent` | src/ui/console.rs:99-104 | jumping to the bottom twice is jumping once |
| `Consoles.Resize` | src/ui/console.rs:92-97 | the prompt lines and the window fill the rows exactly, the window ends at the last buffer line, and the console is kept |
| `Consoles.ResizeIsPinned` | src/ui/console.rs:92-104 | a resized view is already at the bottom, and a second identical resize changes nothing |
| `Consoles.VisibleLines` | src/ui/console.rs:76-81 | the visible lines are exactly buffer lines `start` up to `min(start + range, lines)`, in order; none when `start` is past the end |
| `Consoles.Text` | src/ui/console.rs:75-84 | the text always ends with "\n", prompt and input, preceded by the visible lines joined by "\n"; it is only that tail when `start` is past the end |
| `Consoles.TextLines` | src/ui/console.rs:75-84 | when no visible line ends in '\r' (`str::lines` would strip it on reading back), read back line by line, the text is the visible lines (or one empty line) followed by the prompt and input lines |
| `Consoles.DefaultConsoleText` | src/ui/console.rs:138-147 | a default console (prompt "> ", everything else empty) under a new view displays "\n> " |
| `Consoles.DefaultConsole` | src/ui/console.rs:138-147 | `Console::default`: prompt "> ", with empty buffer, input and history |
| `Consoles.RowsAsWritten` | src/ui/console.rs:92 | the row count as written, `(line_height / container_height) as usize`; `Consoles.RowsAsWrittenVanish` states that it is 0 for any container taller than one line |
| `Consoles.RowsAsWrittenVanish` | src/ui/console.rs:92 | as written, any container taller than one line gives 0 rows |
| `Consoles.RowsAsWrittenUnderflowExample` | src/ui/console.rs:92-94 | a 120 px container with 12 px lines and the default one-line prompt violates the underflow guard of `resize` |
| `Consoles.RowsThatFit` | src/ui/console.rs:92 | the corrected row count: that many lines fit in the container and one more would not |
| `Consoles.ResizeToContainer` | src/ui/console.rs:85-98 | with the corrected row count and the window clamped to the buffer, window plus prompt fit in the container, one more line would not, and the window reaches the last buffer line |
| `Consoles.ResizeToContainerExample` | src/ui/console.rs:85-98 | the 120 px container holds 10 rows; with a one-line prompt and 100 lines, lines 91..99 show |
| `Consoles.ResizeToContainerEmptyBuffer` | src/ui/console.rs:85-98 | with an empty buffer the corrected window starts at line 0 instead of underflowing |
| `Consoles.ShortBufferUnderflowExample` | src/ui/console.rs:92-94 | as written, a 6 px container with 12 px lines passes line 92 (2 rows, 1-line prompt, 1-line window) and then violates the `lines - range` guard of both `resize` and `jump_to_bottom` for a new console's empty buffer |
| `Consoles.ClampedJumpToBottom` | src/ui/console.rs:99-104 | corrected `jump_to_bottom`: the window keeps its size and reaches the last line; it ends there when the buffer is long enough and starts at line 0 otherwise |
| `Consoles.ClampedJumpToBottomAgrees` | src/ui/console.rs:99-104 | where the source does not underflow, the corrected `jump_to_bottom` gives the same view |
| `Consoles.ClampedResize` | src/ui/console.rs:92-97 | corrected `resize`: the window takes the rows the prompt leaves (none if the prompt is taller) and reaches the last buffer line |
| `Consoles.ClampedResizeAgrees` | src/ui/console.rs:92-97 | where the source does not underflow, the corrected `resize` gives the same view |
| `Consoles.WrappingSub` | src/ui/console.rs:94 | `usize` subtraction in a release build: the difference when it is not negative, otherwise the difference plus 2^64 |
| `Consoles.WrappedStartShowsNothing` | src/ui/console.rs:75-97 | in a release build an underflowing `lines - range` puts the start past the end of the buffer, so no buffer line shows and the text is only the prompt line |
| `Consoles.ClampedResizeShowsTheEnd` | src/ui/console.rs:76-97 | the corrected view shows the last lines of the buffer: as many as the window holds, or all of them |
| `Commands.FindIn` | src/commands/events.rs:21 | the builtin found has the looked-up display name; when none is found, no builtin has it |
| `Commands.BuiltinName` | src/commands/data.rs:14-18 | the `strum` display name of a builtin, "clear" for `Clear`; `Commands.FindBuiltinIsExactClear` states which names select a builtin |
| `Commands.FindBuiltin` | src/commands/events.rs:21 | `ConsoleBuiltin::iter().find` by display name; `Commands.FindBuiltinIsExactClear` states which names it accepts |
| `Commands.FindBuiltinIsExactClear` | src/commands/data.rs:14-18 | a name selects a builtin exactly when it equals "clear" |
| `Commands.AddConsoleCommand` | src/commands/app_ext.rs:13-22 | the command is filed under its name with a fresh dispatch system; other names are untouched; an existing entry of that name is replaced |
| `Commands.SameNameRegistrationReplaces` | src/commands/app_ext.rs:15-19 | registering a second command of the same name keeps only the second, with no error |
| `Commands.CommandName` | src/commands/events.rs:12-13 | the name is a prefix of the line without a space, and is the whole line or is followed by a space |
| `Commands.CommandNameIsUnique` | src/commands/events.rs:12-13 | any string with those three properties is the command name |
| `Commands.CommandNameExamples` | src/commands/events.rs:12-13 | the name of "say hello world" is "say"; the empty line has the empty name |
| `Commands.OnCallConsoleCommand` | src/commands/events.rs:6-29 | exactly two effects, all aimed at the originating console: first the echo of prompt and line, then the registered command, or else the builtin, or else the unknown-command message |
| `Commands.UnknownCommand` | src/commands/events.rs:25 | the message `Unknown command '<name>'`; `Commands.UnknownCommandPrintsTwoLines` states when it is printed |
| `Commands.UnknownCommandPrintsTwoLines` | src/commands/events.rs:23-28 | an unknown name prints the echo and "Unknown command '<name>'" and runs nothing |
| `Commands.RegisteredClearShadowsBuiltin` | src/commands/events.rs:19-22 | a registered "clear" runs instead of the builtin; "Clear" is unknown unless registered |
| `Commands.DispatchCmd` | src/commands/app_ext.rs:24-38 | a tokenizer failure prints "Invalid quoting"; a parser failure prints its error; otherwise the parse of the full token list is written; a message is written iff both succeed |
| `Commands.QuotingFailureIgnoresParser` | src/commands/app_ext.rs:30 | when tokenizing fails the parser is never consulted |
| `Commands.ApplyBuiltin` | src/commands/events.rs:31-45 | Clear empties the buffer, leaves the rest of the console alone, puts the view at the top of the empty buffer, and the display is just the prompt line |

## Left out

- The keyboard matcher that tests actions against `just_pressed` and `pressed` is not part of this model. `ConsoleActions.Fires` is a specification of the documented reading, not a model of code. The exclusion groups are read as vetoes. A rule that an action with no key and no modifier groups never fires is not modelled: under `Fires`, such an action fires on every frame.
- Bevy plumbing is left out: observers, `Commands`, `Query`, hooks, message readers and writers, focus and scroll forwarding. Effects are modelled as returned values (intents, updated worlds).
- Floating point is left out. `line_height` and the pixel scroll handlers are omitted, and container and line heights are exact reals in the `resize` finding, not `f32`.
- `shlex::split` and clap's `try_parse_from`, `get_name` and `no_binary_name` are foreign code. They are function parameters of `Commands.DispatchCmd`, or, for the name, of `Commands.AddConsoleCommand`.
- Styling, layout and the UI bundle (colours, fonts, sizes) are left out.
- `Commands.ApplyBuiltin`: the Clear builtin looks up the console and its view with `unwrap` (src/commands/events.rs:38), which panics when the console id does not resolve; the model passes the console and view in, so that panic is not represented.
- `Commands.ApplyBuiltin`: the source passes `&console` to `jump_to_bottom`, which takes a line count. It is modelled as `jump_to_bottom(0)` after the clear, which requires a view of range 0 to avoid the `usize` underflow.
- `History.SetFromHistory`: only the first matched key is used, and the source unwraps it, so at least one key is required. The console must exist for arrows because the source unwraps that lookup too. For arrows it also requires `Coherent`: every filtered index must lie inside the addressed console's history. The source does not ensure this across consoles. A state reached on one console can index past the end of another console's history (src/actions/actions/history.rs:45-46) and panic; `History.SharedStateCrossesConsoles` exhibits it, and the second finding below records it.
- `History.NextPosition`: `saturating_add_signed` also saturates at `usize::MAX`. Integers are unbounded here, and the cap at the match count comes first in any reachable state.
- The `r!` bail on an empty split at src/commands/events.rs:13 is unreachable, because `split` always yields a piece; `Strings.Split` proves that.
- `dispatch_cmd`'s errors go to `ConsolePrint`, which carries no console id. Appending printed lines to a console's buffer is done by the `ConsolePrintln`/`ConsolePrint` handlers, which are not part of this model, so `Commands.OnCallConsoleCommand` stops at the queued effects.
- Pushing submitted lines to `history` and clearing the input on submit happen outside the files modelled. The history is taken as given.
- `Consoles.Resize` takes the row count as a given number; where that number comes from is the first finding below. It and `Consoles.JumpToBottom` require the window to fit in the buffer, because `lines - range` (src/ui/console.rs:94 and :101) underflows otherwise, even for a new console's empty buffer; that is the third finding below.
- `Commands.AddConsoleCommand`: the source takes the `ConsoleCommands` resource with `resource_mut` (src/commands/app_ext.rs:18), which panics when the commands plugin has not inserted it yet; the source's own TODO at app_ext.rs:11-12 says so. The model takes the registry as present: `Registry` has no absent state, so calling `add_console_command` before the plugin is not modelled.
- `Commands.OnCallConsoleCommand`: the source looks up the console with `unwrap` (src/commands/events.rs:14) to read its prompt, which panics when the console id does not resolve; the model passes the prompt in, so that panic is not represented.
- `Commands.OnCallConsoleCommand`: the source does not agree with itself on what a registered command's dispatch system receives. src/commands/events.rs:20 passes the whole `CallCommandEvent`, and src/commands/data.rs:24 types `dispatch` as taking `In<CallCommandEvent>`. But src/commands/app_ext.rs:17 registers `dispatch_cmd::<T>`, whose input is `In<String>` (app_ext.rs:25). The model takes `dispatch_cmd`'s reading: the dispatch system receives the submitted line, and the `RunCommand` effect carries that line.
- src/commands/commands/clear.rs, the registered `clear` command, is not part of this model beyond shadowing the builtin.

## Findings

| source | as written | input that shows it | evidently intended | confidence | as-written member | corrected member |
|---|---|---|---|---|---|---|
| src/ui/console.rs:92 | `(line_height / container_height) as usize - prompt_lines` | container 120 px, line 12 px, default prompt "> " (1 line): the quotient floors to 0, and `0 - 1` underflows `usize` | rows = `container_height / line_height`, the number of whole lines that fit | high, not executed | `Consoles.RowsAsWrittenUnderflowExample` | `Consoles.ResizeToContainer` |
| src/actions/actions/history.rs:9-11 | the navigation state (`history_idx`, `filtered_history`, `original_value`) is one `Local` set for the whole system, shared by every console | console 0 with history `["go build", "go test", "rust fmt"]` and console 1 with none, both with input "go": Up on console 0 leaves the filter `[0, 1]` at position 1; Up on console 1 then moves to position 2 and reads `history[0]` of an empty history (line 46), which panics | one navigation state per console | medium, not executed | `History.SharedStateCrossesConsoles` | `History.SetFromHistoryPerConsole` |
| src/ui/console.rs:94 | `start: lines - range`, and `lines - self.range` at line 101 | a new console (empty buffer, 0 lines) in a 6 px container with 12 px lines: line 92 computes 2 - 1, a 1-line window, and `0 - 1` underflows `usize`. A container taller than one line panics at line 92 first (first finding); once that is corrected, a 120 px container gives a 9-line window and `0 - 9` underflows here | a window longer than the buffer starts at line 0 | high, not executed | `Consoles.ShortBufferUnderflowExample` | `Consoles.ClampedResize` |
