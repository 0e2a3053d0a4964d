# HackerConsole in Dafny

HackerConsole is a retro terminal window written in C# on top of SFML. It
keeps three things:

- a scrollback of text lines;
- an edit line with a caret, a command history and tab completion;
- a registry of extension commands, compiled from C# source or loaded from
  a `.dll`.

The example program registers one handler for the built-in commands `exit`,
`quit`, `clear`, `help`, `load-script` and `font`. Pressing Return offers the
submitted line to every handler. If none claims it, the registry runs the
matching extension. If the registry has none either, the line is reported as
not a valid command.

This project models that behaviour and proves properties of it. Its modules
follow the program:

- `Text` (text.dfy): the .NET string operations the code relies on. These
  are `Trim(char)`, `Split(char)`, `StartsWith`, `EndsWith`, `IndexOf`,
  `LastIndexOf`, ASCII `ToLower`, and decimal printing and parsing of
  unsigned numbers.
- `Ordering` (ordering.dfy): `Array.Sort` with a comparer, as an insertion
  sort over an abstract order. It is proved sorted and a permutation, and
  any sorted permutation is the same sequence.
- `Viewport` (viewport.dfy): the rows `Draw` and `DrawString` put on the
  character grid. The grid's width and height are whole cells, given as
  parameters.
- `Editing` (editing.dfy): the edit line as a value. It covers every key's
  effect on the buffer, the caret and the history cursor, prefix completion
  and the splitting of a submitted line into a command.
- `Scripting` (scripting.dfy): the `ScriptCompiler` class. It holds the
  registry (a name-to-extension map, the dictionary's enumeration order and
  an instance counter) and the loader's decision logic over abstract
  `TypeDesc` values, one per type of an assembly.
- `HackerConsole` (console.dfy): the `Console` class, with the fields the
  key handlers update, and the `Program` class with `HandleCommand`.
  - Every handler is specified by a value-level function: `KeyStep` for a
    key press, `Respond` for a built-in command.
  - Each method's postcondition ties the new state of the objects to that
    function applied to the old state.
- `ConsoleLaws` (console_laws.dfy): the properties promised about those
  functions. These cover caret and cursor bounds, frames, dispatch, the
  command replies and completion.

The window, the font, the clock, the file system, the C# compiler and
reflection are not modelled. What they answer is passed in: a `Host` value
(file existence, script file listings, a toolchain, the sort order) and
integer grid sizes.

Four behaviours of the code shape the model:

- Typed text is appended at the end of the buffer, wherever the caret is.
  The caret still moves by one (HackerConsole/Console.cs:358-359).
- Return calls every handler, also after one has claimed the command
  (HackerConsole/Console.cs:309-311).
- A line with no space passes `null` (`None`) as its arguments, not an empty
  list (HackerConsole/Console.cs:304-308).
- Because typing appends, the caret equals the buffer length after a run of
  typed characters only when it started at the end (`Editing.TypingAtEnd`,
  `Editing.TypingIgnoresCaret`).

Every text written goes through `Console.Format`, which calls
`TextWriter.Write(string, object[])` and so `String.Format`. A doubled brace
(`{{` or `}}`) stands for one brace, and any other brace throws a
`FormatException`. The calls that pass a `{0}` argument insert the argument
as it is. The model has both: `Text.Format` for calls without arguments, and
`WriteFormatted` for the `{0}` calls. An exception that escapes a key handler
sets the console's `faulted` flag and ends the handler at that point.

## Model

| member | source | states |
|---|---|---|
| `HackerConsole.LinesOfRejoin` | HackerConsole/Console.cs:193-201 | `WriteLine` adds at least one line. No added line holds a line break. Joined with breaks, the lines give back the text with its outer breaks trimmed. Exactly one line is added iff the trimmed text has no break. |
| `HackerConsole.WriteLines` | HackerConsole/Console.cs:193-201 | `WriteLine` without arguments writes something iff `Format` accepts the text. A brace-free text is written as its `LinesOf`. |
| `HackerConsole.PlainLine` | HackerConsole/Console.cs:197-199 | A text with no line break is written as exactly one unchanged line. |
| `HackerConsole.UsageLines` | Example/Program.cs:71 | The `font color` and `font size` usage strings are written as two lines each. |
| `HackerConsole.TwoLines` | HackerConsole/Console.cs:195-196 | Two non-empty, break-free lines joined by one break are written as those two lines. |
| `HackerConsole.HeaderLine` | Example/Program.cs:51 | The help header is written as one line. |
| `HackerConsole.PrefixedJoin` | Example/Program.cs:58-61 | The help loop puts ", " before each name and then drops the first two characters. The result is the names joined with ", ". |
| `HackerConsole.VerdictEffect` | Example/Program.cs:43-47 | A verdict's reply registers the verdict, then writes its lines. An acceptance writes the success line. A rejection writes its message's lines, and throws exactly when `Format` refuses the message. A raised exception writes nothing. |
| `HackerConsole.HelpEffect` | Example/Program.cs:50-62 | `help` writes its header line, then the sorted listing, and claims the command. When `Format` refuses the listing, it throws after the header. |
| `HackerConsole.DispatchKeepsThrow` | HackerConsole/Console.cs:309-311 | Once a handler has thrown, later handlers change nothing: the outcome is that of the prefix that threw. |
| `HackerConsole.Console.constructor` | HackerConsole/Console.cs:22-44 | A new console has empty scrollback and history, the prompt "Command> ", caret 0, no handlers, font size 12, white text and a black background, as the field initialisers and the constructor body (lines 80 and 114-117) leave them. |
| `HackerConsole.Console.Shutdown` | HackerConsole/Console.cs:132-134 | It stops the console. |
| `HackerConsole.Console.Clear` | HackerConsole/Console.cs:156-158 | It empties the scrollback. |
| `HackerConsole.Console.SetFontColor` | HackerConsole/Console.cs:160-162 | It sets the text colour from three bytes. |
| `HackerConsole.Console.SetBackgroundColor` | HackerConsole/Console.cs:164-166 | It sets the background colour from three bytes. |
| `HackerConsole.Console.SetFontSize` | HackerConsole/Console.cs:168-170 | It sets the font size. |
| `HackerConsole.Console.SetCaretPosition` | HackerConsole/Console.cs:172-174 | The caret, relative to the prompt prefix, becomes the given position. |
| `HackerConsole.Console.SetCommandPrefix` | HackerConsole/Console.cs:183-185 | It replaces the prompt prefix. The caret keeps its absolute column, so its relative position shifts by the change in length. |
| `HackerConsole.Console.AddCommandHandler` | HackerConsole/Console.cs:178-181 | The handler and its command names are appended. |
| `HackerConsole.Console.Write` | HackerConsole/Console.cs:187-191 | An index outside the scrollback changes nothing. Otherwise, when `Format` accepts the text, only that line changes: it gains the formatted text. When `Format` refuses it, the call throws and nothing changes. The line count is kept. |
| `HackerConsole.Console.WriteLine` | HackerConsole/Console.cs:193-201 | It throws exactly when `Format` refuses the text, and then adds nothing. Otherwise the scrollback becomes the old lines plus the lines of the formatted text, and it returns the index of the last one, which is new. Nothing else in the console changes. |
| `HackerConsole.Console.WriteFormatted` | HackerConsole/Console.cs:193-201 | A `{0}` call adds exactly the lines of the text with the argument inserted, and never throws. Nothing else changes. |
| `HackerConsole.Console.AddLines` | HackerConsole/Console.cs:195-199 | A text with a line break adds its pieces between breaks, and one without adds itself. It returns the index of the last line added. |
| `HackerConsole.Console.DrawString` | HackerConsole/Console.cs:203-233 | It draws exactly `Rows` of the entry from row `y` down, and `consoleLine` advances by one per row. At a width of 1 or more these are the wrapped rows. A non-empty entry at a negative width throws in `Substring`. |
| `HackerConsole.Console.DrawPieces` | HackerConsole/Console.cs:208-224 | The chunking loop draws exactly the wrapped rows of the entry, and `consoleLine` advances by one per row. |
| `HackerConsole.Console.Draw` | HackerConsole/Console.cs:235-252 | It draws the visible trailing entries stacked from row 0, then the prompt and command text at row `h`. `consoleLine` ends at the number of rows drawn. It throws exactly when the width is negative and a shown entry or the prompt is non-empty. |
| `HackerConsole.Console.ShownEntries` | HackerConsole/Console.cs:248 | The entries shown are the `Visible` ones. |
| `HackerConsole.Console.DrawEntries` | HackerConsole/Console.cs:248-250 | The shown entries are stacked as `Layout` says. The loop throws exactly when one of them is non-empty at a negative width, and then nothing has been drawn. |
| `HackerConsole.Console.AutoComplete` | HackerConsole/Console.cs:258-294 | When a `load-script` file search throws, the call throws and no line is added. Otherwise it returns the completion of the token against the context's candidates. Exactly when several match, one "Available: " line is added, holding what `AvailableListing` appends. It then throws exactly when several match and one of their pieces cannot be formatted. |
| `HackerConsole.Console.CandidateList` | HackerConsole/Console.cs:259-279 | The candidates: with no context, the handler commands then the registered names. After `load-script`, the `.cs` files then the `.dll` files matching the token, and an exception exactly when one of the two searches throws. Otherwise none. |
| `HackerConsole.Console.CountMatches` | HackerConsole/Console.cs:281-282 | The counting loop gives the number of candidates starting with the token. |
| `HackerConsole.Console.ListMatches` | HackerConsole/Console.cs:285-292 | Exactly one line is added: "Available: " and each match with a space, formatted, in candidate order, up to the first piece `Format` refuses. It throws exactly then. |
| `HackerConsole.Console.StartListing` | HackerConsole/Console.cs:286 | Exactly the line "Available: " is added, and its index is returned. |
| `HackerConsole.Console.WriteMatch` | HackerConsole/Console.cs:289 | One match and a space, formatted, are appended to the "Available: " line, or the call throws and nothing changes. |
| `HackerConsole.Console.OnTab` | HackerConsole/Console.cs:343-350 | The Tab key has the effect `TabStep` specifies on the whole console, including the fault when a file search throws or a listed name cannot be formatted. |
| `HackerConsole.Console.TabTargetOf` | HackerConsole/Console.cs:344-348 | The cut Tab makes: the head up to the last space, the token after it, and the first word as context. With no space there is no context. |
| `HackerConsole.Console.CallHandler` | HackerConsole/Console.cs:310 | One handler call: `HandleCommand` for the program's handler, and for an extension handler its answer to the command and the arguments. |
| `HackerConsole.Console.OnReturn` | HackerConsole/Console.cs:298-316 | The Return key has the effect `ReturnStep` specifies on the whole console, and the registry stays valid. |
| `HackerConsole.Console.Record` | HackerConsole/Console.cs:299-301 | The line is appended to the history, the history cursor is reset, and the caret goes to column 0. |
| `HackerConsole.Console.Conclude` | HackerConsole/Console.cs:312-315 | After the handlers: a throw keeps the line and marks the console faulted. Otherwise an unclaimed command goes to the registry or is reported, and the line is cleared. |
| `HackerConsole.Console.SplitCommand` | HackerConsole/Console.cs:303-308 | The lower-cased first word and the arguments are what `Tokenize` gives. |
| `HackerConsole.Console.OfferAll` | HackerConsole/Console.cs:309-311 | Every handler is called in order whatever the earlier ones answered, stopping only at an exception. The result is `Dispatch`'s. |
| `HackerConsole.Console.RunOrReport` | HackerConsole/Console.cs:312-314 | The registry runs a name it knows. Otherwise "<line> is not a valid command" is written, and the call throws when `Format` refuses that text. |
| `HackerConsole.Console.TextInputHandler` | HackerConsole/Console.cs:355-360 | The edit line changes as `TypeText` says. |
| `HackerConsole.Console.WindowOnKeyPressed` | HackerConsole/Console.cs:296-353 | Each key has the effect `KeyStep` specifies on the whole console, and the registry stays valid. Tab faults, with the edit line and scrollback kept, when a `load-script` file search throws. |
| `HackerConsole.Console.OnBackSpace` | HackerConsole/Console.cs:317-322 | Where `Remove` is defined, the edit line changes as `Backspace` says. With the caret past the end, the line is unchanged and the console is faulted. |
| `HackerConsole.Console.OnDown` | HackerConsole/Console.cs:323-329 | The edit line changes as `HistoryDown` says. |
| `HackerConsole.Console.OnUp` | HackerConsole/Console.cs:330-336 | The edit line changes as `HistoryUp` says. |
| `HackerConsole.Console.OnLeft` | HackerConsole/Console.cs:337-339 | The edit line changes as `MoveLeft` says. |
| `HackerConsole.Console.OnRight` | HackerConsole/Console.cs:340-342 | The edit line changes as `MoveRight` says. |
| `HackerConsole.Program.HandleCommand` | Example/Program.cs:21-99 | The console's state and the answer are those `Respond` specifies for the command, and the registry stays valid. |
| `HackerConsole.Program.LoadScript` | Example/Program.cs:30-49 | The `load-script` case has the effect `LoadScriptReply` specifies: no argument throws, a missing script is reported, and a found one is loaded and reported. |
| `HackerConsole.Program.FindScript` | Example/Program.cs:34-42 | The script is looked for as named, then under "scripts\\". |
| `HackerConsole.Program.LoadAndReport` | Example/Program.cs:43-47 | The loader's verdict is registered, then the success line or the error text is written. It throws exactly when the reply is a fault: the loader raised, or `Format` refused the error text. |
| `HackerConsole.Program.Help` | Example/Program.cs:50-62 | `help` writes its header line, then the listing line. It throws after the header when `Format` refuses the listing. |
| `HackerConsole.Program.WriteHelpHeader` | Example/Program.cs:51 | Exactly the header line is added. |
| `HackerConsole.Program.HelpListing` | Example/Program.cs:52-61 | The listing holds the registered names, if any, and the built-in names, sorted and joined with ", ". |
| `HackerConsole.Program.SortedList` | Example/Program.cs:57-61 | The names, sorted by the comparer, joined with ", ". |
| `HackerConsole.Program.PrefixEach` | Example/Program.cs:58-60 | The loop puts ", " before each name. |
| `HackerConsole.Program.Font` | Example/Program.cs:63-95 | `font` has the effect `FontReply` specifies on the console. |
| `HackerConsole.Program.FontColor` | Example/Program.cs:69-82 | `font color` has the effect `FontColorReply` specifies. |
| `HackerConsole.Program.WriteColorUsage` | Example/Program.cs:71 | Exactly the two `font color` usage lines are added. |
| `HackerConsole.Program.WriteSizeUsage` | Example/Program.cs:85 | Exactly the two `font size` usage lines are added. |
| `HackerConsole.Program.FontSize` | Example/Program.cs:83-93 | `font size` has the effect `FontSizeReply` specifies. |
| `ConsoleLaws.KeyStepKeepsRange` | HackerConsole/Console.cs:296-353 | From a caret within the command text and a cursor within the history, every key press keeps both in range. |
| `ConsoleLaws.TypeTextKeepsRange` | HackerConsole/Console.cs:355-360 | Typed text keeps the caret and the cursor in range. |
| `ConsoleLaws.KeyStepFrame` | HackerConsole/Console.cs:317-350 | Keys other than Return leave the history, the runs and all of the shell except its lines unchanged. Only Tab can write, and then at most one line, after the old ones. Only BackSpace and Tab can fault, and then the edit line is unchanged. |
| `ConsoleLaws.ReturnStepSpec` | HackerConsole/Console.cs:298-316 | Return: the history gains the line, and the caret and cursor become 0. The buffer empties unless a handler or the report threw, and then the edit line and history are those `Submit` gives. The registry runs the command exactly when it is unclaimed, no handler threw and it is registered. "<line> is not a valid command" is written exactly when it is unclaimed and unregistered and `Format` accepts it. |
| `ConsoleLaws.NotValidLine` | HackerConsole/Console.cs:314 | A line with no line break and no brace is reported as exactly one line, "<line> is not a valid command". |
| `ConsoleLaws.NotValidBrace` | HackerConsole/Console.cs:314 | A line holding one lone brace cannot be reported: `Format` refuses the report, so it throws. |
| `ConsoleLaws.TabStepSpec` | HackerConsole/Console.cs:343-350 | Tab: the candidates are missing exactly when the context is `load-script` and one of the two file searches (lines 269 and 273) throws; then the edit line and the shell are kept and the console faults. When several names match and one cannot be formatted, the edit line is kept and the console faults. Otherwise the caret ends at the end of the new text. The new text extends the old one. A unique match gives the head, the match and a space, and any other count keeps the text. Only several matches write one line. |
| `ConsoleLaws.TabWithoutScripts` | HackerConsole/Console.cs:268-273 | Tab after "load-script " with no `scripts` directory: the console faults, and the edit line and the shell are kept. |
| `ConsoleLaws.TabCompletes` | HackerConsole/Console.cs:347 | The spliced text starts with the old buffer, and is the head, the match and a space when the match is unique. |
| `ConsoleLaws.DispatchExtensions` | HackerConsole/Console.cs:309-311 | With extension handlers only, the shell is unchanged. The round throws iff some handler throws. Otherwise the command is claimed iff some handler answers true. |
| `ConsoleLaws.DispatchExtensionsThrow` | HackerConsole/Console.cs:309-311 | When the round throws, the first throwing handler ends it, and the command counts as claimed iff a handler before it answered true. |
| `ConsoleLaws.RespondClaims` | Example/Program.cs:21-99 | A reply that returns claims exactly the built-in names. `load-script` throws exactly without a name or when its verdict's reply faults. `help` throws exactly when `Format` refuses the listing. `font` throws exactly for an empty argument list. No other command throws. |
| `ConsoleLaws.TokenizedFont` | HackerConsole/Console.cs:303-308 | A submitted line never makes `font` throw, because `Tokenize` never gives an empty argument list. `load-script` with no argument throws. |
| `ConsoleLaws.BuiltinStops` | Example/Program.cs:23-29 | `exit` and `quit` only stop the console, and `clear` only empties the scrollback. |
| `ConsoleLaws.NotFoundReport` | Example/Program.cs:34-42 | A script found neither as named nor under "scripts\\" leaves the registry unchanged and adds "<name> not found". That is a single line when the name has no break. |
| `ConsoleLaws.VerdictReport` | Example/Program.cs:43-48 | Only the lines and the registry change, and the registry as `Register` says. A failed load keeps the commands and writes the error's lines, or nothing when `Format` refuses it. A brace-free error is written as its lines. A successful load registers the script and writes "<name> loaded successfully". A raised exception writes nothing. |
| `ConsoleLaws.BraceInDiagnostics` | HackerConsole/ScriptCompiler.cs:67-72 | A compiler error whose text holds one lone brace makes `load-script` throw: the error report is written without arguments. |
| `ConsoleLaws.HelpLineOrder` | Example/Program.cs:55-61 | The listing is sorted by the comparer and holds every registered and built-in name, duplicates kept. |
| `ConsoleLaws.FontColorPrinted` | Example/Program.cs:74-77 | `font color` with three bytes in decimal sets exactly that colour and writes nothing. |
| `ConsoleLaws.FontColorUsage` | Example/Program.cs:70-81 | Too few arguments, or any that is not a byte, write the usage text and change nothing else. |
| `ConsoleLaws.FontColorSet` | Example/Program.cs:74-77 | Three bytes set the colour to them and write nothing. |
| `ConsoleLaws.FontSizePrinted` | Example/Program.cs:87-88 | `font size` with a 32-bit number in decimal sets exactly that size. |
| `ConsoleLaws.FontSizeUsage` | Example/Program.cs:84-92 | A missing size writes the usage text twice, and an unparsable one writes it once. The size is kept either way. |
| `ConsoleLaws.FontReport` | Example/Program.cs:64-66 | `font` alone writes one line, which parses back as the current size. |
| `ConsoleLaws.FontOtherIgnored` | Example/Program.cs:94-95 | Another `font` subcommand is claimed and changes nothing. |
| `Editing.TypeText` | HackerConsole/Console.cs:355-360 | A filtered control character changes nothing. Otherwise the text is appended at the end and the caret moves one place. |
| `Editing.Backspace` | HackerConsole/Console.cs:317-322 | With a non-empty buffer and the caret past its start, exactly the character before the caret is removed and the caret moves back. Otherwise nothing changes. |
| `Editing.MoveLeft` | HackerConsole/Console.cs:337-339 | The caret moves back one place, stopping at 0. |
| `Editing.MoveRight` | HackerConsole/Console.cs:340-342 | The caret moves forward one place, stopping at the end. |
| `Editing.HistoryUp` | HackerConsole/Console.cs:330-336 | Below the oldest entry, the cursor goes up one and the entry is loaded. Otherwise the buffer is kept. The caret goes to the end and the cursor stays in range. |
| `Editing.HistoryDown` | HackerConsole/Console.cs:323-329 | Above 1, the cursor goes down one and the entry is loaded. Otherwise the buffer empties and the cursor stays. The caret goes to the end. |
| `Editing.Submit` | HackerConsole/Console.cs:299-315 | Return when neither a handler nor the report throws: the history gains the buffer at its end, and the edit line starts over empty. When one throws, `ReturnWith` keeps the buffer instead (line 315 is not reached). |
| `Editing.UpsRecall` | HackerConsole/Console.cs:330-336 | From cursor 0, k presses of Up show the k-th most recent entry, then stay at the oldest. |
| `Editing.DownUndoesUp` | HackerConsole/Console.cs:323-336 | Down undoes Up while browsing below the oldest entry. |
| `Editing.DownThenUpSkipsNewest` | HackerConsole/Console.cs:324-327 | Down at entry 1 keeps the cursor at 1, so the next Up shows the second most recent entry. |
| `Editing.TypingAtEnd` | HackerConsole/Console.cs:358-359 | Typing printable characters with the caret at the end keeps it at the end, and appends exactly what was typed. |
| `Editing.TypingIgnoresCaret` | HackerConsole/Console.cs:358-359 | Typing gives the same buffer from any caret, and moves the caret by the same amount: the text goes at the end wherever the caret is. |
| `Editing.MatchesSpec` | HackerConsole/Console.cs:282 | The matches are exactly the candidates starting with the token, in order. |
| `Editing.FirstMatchIsFirstOfMatches` | HackerConsole/Console.cs:284 | `Find` returns the first of the matches. |
| `Editing.CompleteSpec` | HackerConsole/Console.cs:283-293 | A completion extends the token. It is the unique match and a space when there is exactly one, and the token otherwise. |
| `Editing.ListingThrows` | HackerConsole/Console.cs:287-291 | The listing throws iff some match cannot be formatted with its space. |
| `Editing.ListingKeepsThrow` | HackerConsole/Console.cs:287-291 | Once a piece has thrown, the later matches add nothing. |
| `Editing.ListingStopsAt` | HackerConsole/Console.cs:289 | A matching candidate whose piece `Format` refuses ends the whole listing with what the earlier matches appended. |
| `Editing.MatchesPrefix` | HackerConsole/Console.cs:282 | The matches among a prefix of the candidates are a prefix of all the matches. |
| `Editing.ListingStep` | HackerConsole/Console.cs:287-291 | One more candidate: one that does not match changes nothing. A match's formatted piece is appended, or the listing throws when `Format` refuses it. |
| `Editing.ListingPlain` | HackerConsole/Console.cs:287-291 | With plain names (no space, line break or brace), nothing throws and the listed text splits back into the matches in candidate order. |
| `Editing.TabSplitSpec` | HackerConsole/Console.cs:344-348 | The head and the token give the buffer back. The token has no space and the head ends at the last space. The context is the first word. |
| `Editing.Tokenize` | HackerConsole/Console.cs:303-308 | The arguments are `null` exactly when the line has no space, and otherwise number at least one. The name is lower case and has no space. |
| `Editing.TokenizeRejoins` | HackerConsole/Console.cs:303-308 | The first word and the arguments, joined with spaces, give the line back. |
| `Scripting.Judge` | HackerConsole/ScriptCompiler.cs:90-116 | A type is judged by its first interface only. It is accepted exactly when that interface is `ICommandScript`, the public nullary constructor exists and construction succeeds, each failure having its own message. |
| `Scripting.Caught` | HackerConsole/ScriptCompiler.cs:22-28 | A caught exception never escapes: the `.dll` branch turns it into a rejection. |
| `Scripting.DecideByFirst` | HackerConsole/ScriptCompiler.cs:89-117 | Types without interfaces are skipped, and the first type with one decides. |
| `Scripting.DecideNone` | HackerConsole/ScriptCompiler.cs:119-120 | No type with interfaces gives a rejection with an empty message. |
| `Scripting.DecideAccepts` | HackerConsole/ScriptCompiler.cs:89-120 | Acceptance holds iff the first type with interfaces is acceptable. The accepted type is one of the assembly's. |
| `Scripting.DiagnosticsMessage` | HackerConsole/ScriptCompiler.cs:60-76 | No diagnostics give "Script Valid". Errors give the invalid header and the listing. Only warnings give the warnings header and the listing. |
| `Scripting.ListingLines` | HackerConsole/ScriptCompiler.cs:63-65 | The listing's lines are the diagnostics' texts in order, then an empty line. |
| `Scripting.LoadVerdictErrors` | HackerConsole/ScriptCompiler.cs:20-33 | A `.cs` build with errors is rejected with its report. A `.dll` whose load or processing throws is rejected with "Failed to load .dll". Only a `.cs` build without errors whose processing throws lets the exception escape. An accepted type comes from the loaded or built assembly. |
| `Scripting.Insert` | HackerConsole/ScriptCompiler.cs:97-101 | A new name goes last, a replaced one keeps its slot, and the keys stay distinct. |
| `Scripting.RegisterSpec` | HackerConsole/ScriptCompiler.cs:94-104 | A rejection leaves the commands and their enumeration order unchanged. If the extension's `Load` had already run (a `.dll` whose exception was caught, or a `Load` or `GetCommandName` that threw), the instance is still counted and recorded as loaded. An acceptance adds or replaces exactly the type's name, counts one more instance and records it as loaded. Registry validity is kept. |
| `Scripting.LastLoadWins` | HackerConsole/ScriptCompiler.cs:97-102 | Two loads of one name leave one registration, in the name's first place, for the second instance; the name is enumerated once. |
| `Scripting.ReloadScenario` | HackerConsole/ScriptCompiler.cs:97-102 | Loading one extension twice into a new registry leaves one name, bound to the second instance. |
| `Scripting.ScriptCompiler.constructor` | HackerConsole/ScriptCompiler.cs:9 | The registry starts empty. |
| `Scripting.ScriptCompiler.RunCommand` | HackerConsole/ScriptCompiler.cs:40-46 | It returns true iff the name is registered, and then runs exactly that extension with the arguments. The registry is unchanged. |
| `Scripting.ScriptCompiler.HasCommands` | HackerConsole/ScriptCompiler.cs:48-51 | True iff the registry is non-empty. |
| `Scripting.ScriptCompiler.GetCommands` | HackerConsole/ScriptCompiler.cs:53-58 | It gives `null` for an empty registry, and otherwise the keys in enumeration order, each once and exactly the registered ones. |
| `Scripting.ScriptCompiler.HasErrors` | HackerConsole/ScriptCompiler.cs:60-76 | True iff some diagnostic is an error. The message is `DiagnosticsMessage`'s. |
| `Scripting.ScriptCompiler.TestScript` | HackerConsole/ScriptCompiler.cs:11-18 | A name not ending in ".cs" is refused with "this only supports .cs extension". Otherwise it reports the build's validity and message. |
| `Scripting.ScriptCompiler.Construct` | HackerConsole/ScriptCompiler.cs:94 | One more instance is counted and recorded as loaded, and its serial is returned. |
| `Scripting.ScriptCompiler.Bind` | HackerConsole/ScriptCompiler.cs:97-102 | The name is bound to the constructed instance, by add or by remove-then-add. The enumeration order is `Insert`'s. |
| `Scripting.ScriptCompiler.Instantiate` | HackerConsole/ScriptCompiler.cs:92-112 | For a type whose first interface is `ICommandScript` and which has a public nullary constructor, the registry changes as `Register` says for `Judge`'s verdict. It succeeds iff accepted, throws iff the verdict raises, and its error is the verdict's message. |
| `Scripting.ScriptCompiler.ProcessScript` | HackerConsole/ScriptCompiler.cs:88-121 | The registry changes as `Register` says for the verdict of `Process`. It succeeds iff accepted, throws iff the verdict raises, and its error is the verdict's message. |
| `Scripting.ScriptCompiler.Load` | HackerConsole/ScriptCompiler.cs:20-34 | The registry changes as `Register` says for the whole load's verdict. It succeeds iff accepted, throws iff the verdict raises, and its error is the verdict's message. |
| `Text.TrimStart` | HackerConsole/Console.cs:368 | It does not grow the text, and the result does not start with the character. |
| `Text.TrimStartShape` | HackerConsole/Console.cs:368 | What is dropped is a run of the character, and what is kept is the rest. |
| `Text.TrimEnd` | HackerConsole/Console.cs:368 | It does not grow the text, and the result does not end with the character. |
| `Text.TrimEndShape` | HackerConsole/Console.cs:368 | What is dropped is a run of the character at the end, and what is kept is the rest. |
| `Text.Trim` | HackerConsole/Console.cs:368 | The result neither starts nor ends with the character. |
| `Text.TrimShape` | HackerConsole/Console.cs:368 | The text is the result with runs of the character around it. |
| `Text.TrimUnique` | HackerConsole/Console.cs:368 | A text wrapped in runs of the character, with a core that is not, trims to that core. |
| `Text.TrimIdempotent` | HackerConsole/Console.cs:368 | Trimming twice is trimming once. |
| `Text.SplitSpec` | HackerConsole/Console.cs:196 | No piece holds the separator. There is one piece iff the separator does not occur, and then it is the whole text. |
| `Text.JoinSplit` | HackerConsole/Console.cs:196 | The pieces joined with the separator give the text back. |
| `Text.SplitJoin` | HackerConsole/Console.cs:196 | Splitting separator-free pieces joined with the separator gives the pieces back. |
| `Text.ToLower` | HackerConsole/Console.cs:310 | Each character is lowered in place, and no upper-case letter remains. |
| `Text.ToLowerIdempotent` | HackerConsole/Console.cs:310 | Lower-casing twice is lower-casing once. |
| `Text.IndexOf` | HackerConsole/Console.cs:346 | -1 iff the character is absent, and otherwise its first position. |
| `Text.LastIndexOf` | HackerConsole/Console.cs:345 | -1 iff the character is absent, and otherwise its last position. |
| `Text.Format` | HackerConsole/Console.cs:362-369 | Formatting succeeds iff every brace is doubled. The result neither starts nor ends with a line break. A brace-free text formats to itself with its outer line breaks trimmed. |
| `Text.UnescapeEscape` | HackerConsole/Console.cs:364 | Doubling every brace gives a format string that formats back to the text. |
| `Text.EscapeUnescape` | HackerConsole/Console.cs:364 | A format string that formats is the text it gives with every brace doubled. |
| `Text.UnescapePlain` | HackerConsole/Console.cs:364 | A text without braces formats to itself. |
| `Text.LoneBraceThrows` | HackerConsole/Console.cs:364 | One brace between brace-free texts makes `Format` throw. |
| `Text.NatToStringSpec` | Example/Program.cs:65 | The decimal form is at least one digit, with no leading zero. |
| `Text.ParseDigitsSpec` | Example/Program.cs:75 | Exactly strings of digits parse, to their value. |
| `Text.DigitsOfNat` | Example/Program.cs:65 | The printed number parses back as digits to itself. |
| `Text.ParseUnsignedSpec` | Example/Program.cs:75 | `Byte.Parse` and `UInt32.Parse` drop leading white space (U+0009 to U+000D and the space), trailing NULs and the white space before them. What is left must be an optional sign and digits whose value is in range, with a minus only before zero. The result is that value. |
| `Text.PaddedCore` | Example/Program.cs:75 | The digits are what is left after dropping leading and trailing white space and trailing NULs. |
| `Text.ParsePadded` | Example/Program.cs:75 | A decimal number with white space around it and trailing NULs parses to its value iff it is in range. |
| `Text.ParsePrinted` | Example/Program.cs:88 | Every in-range value's decimal form parses back to it. |
| `Ordering.InsertByPermutation` | Example/Program.cs:57 | Inserting adds the element and loses nothing. |
| `Ordering.SortByPermutation` | Example/Program.cs:57 | The sort is a permutation of its input. |
| `Ordering.InsertBySorted` | Example/Program.cs:57 | Inserting into a sorted sequence keeps it sorted under a total preorder. |
| `Ordering.SortBySorted` | Example/Program.cs:57 | The result is sorted under a total preorder. |
| `Ordering.SortByIgnoresArrangement` | Example/Program.cs:55-57 | Under an antisymmetric total preorder, sorting any permutation of the names gives the same listing, so the order `commands` was left in by an earlier sort does not matter. |
| `Ordering.SortedPermutationUnique` | Example/Program.cs:57 | Under an antisymmetric total preorder, any two sorted permutations are equal, so any correct sort agrees with this one. |
| `Viewport.WrapRows` | HackerConsole/Console.cs:209-231 | An entry of at most `w` characters is one row. Rows are at most `w` long and all but the last are full. |
| `Viewport.WrapRowsConcat` | HackerConsole/Console.cs:209-224 | The rows read back the entry. |
| `Viewport.WrapRowsCount` | HackerConsole/Console.cs:209-224 | A longer entry takes ceil(length / w) rows. |
| `Viewport.WrapRowsCountAt` | HackerConsole/Console.cs:212-213 | Row k exists exactly when k is 0 or k * w is inside the entry. |
| `Viewport.WrapRowsAt` | HackerConsole/Console.cs:213-217 | Row k is the `w` characters from k * w on, fewer for the last row. |
| `Viewport.Place` | HackerConsole/Console.cs:218 | Rows are drawn one under another from row `y`. |
| `Viewport.Rows` | HackerConsole/Console.cs:209-231 | At a width of 1 or more the rows are the wrapped rows. At width 0 an empty entry takes one empty row, and at a negative width an entry takes none. |
| `Viewport.RowsConcat` | HackerConsole/Console.cs:209-231 | When drawing does not throw, the rows read back the entry. |
| `Viewport.Layout` | HackerConsole/Console.cs:247-250 | Entries are stacked from row 0 with no gaps. At a width of 0 or more, each takes at least one row. |
| `Viewport.LayoutConcat` | HackerConsole/Console.cs:247-250 | At a width of 0 or more, the stacked rows read back the shown entries in order. |
| `Viewport.LayoutNegative` | HackerConsole/Console.cs:247-250 | At a negative width nothing is stacked. |
| `Viewport.Visible` | HackerConsole/Console.cs:248 | `Draw` shows the last min(count, h - 1) entries, in order, and none when h <= 1. |

## Left out

- Rendering goes through SFML and is not modelled. This covers the window, text and caret shapes, caret flashing driven by the clock, `Loop`, event wiring and the empty mouse-scroll handler. Only the rows and their grid positions are modelled.
- Glyph metrics (`maxWidth`, `maxHeight`, the measurement in the `FontSize` setter) are floating point. Width and height are integer parameters of `Draw` and `DrawString`.
- The constructor's `LoadLibrary` calls and DLL discovery are foreign calls and are not modelled.
- `LoadPlugins` enumerates a directory. It is I/O around `Load` and is not modelled.
- `ScriptCompiler.Load(Assembly, …)` only forwards to `ProcessScript`, which is modelled.
- CodeDom compilation (`BuildAssembly`) and reflection (`Assembly.LoadFrom`, `GetTypes`, `GetInterfaces`, `GetConstructor`, `Invoke`) become a `Toolchain` and `TypeDesc` values. Any exception `Assembly.LoadFrom` raises is `None`.
- File existence and the script-file search for `load-script` completion are `Host` functions. Their answers are inputs. A search that throws (`DirectoryNotFoundException` when there is no `scripts` directory, `ArgumentException` for a pattern the file system refuses) is a `None` answer; which patterns fail is part of that input.
- `String.Format` is modelled for format strings without arguments (brace escapes and the `FormatException` of a lone brace) and for the program's `{0}` calls, whose argument is inserted as it is. Alignment and format specifiers inside placeholders are not modelled, because no call in the core uses them.
- `HackerConsole.Console.DrawString`, `HackerConsole.Console.Draw`: at width 0 the chunking loop never ends for a non-empty text, because `unread` never decreases. Their `RowsDefined` precondition excludes that case, so the hang is not modelled.
- `HackerConsole.Console.CallHandler`, `ConsoleLaws.DispatchExtensions`: an extension handler is modelled as its answer (claimed, not claimed, or an exception) to the command and its arguments. What such a handler does to the console or the registry is not modelled; the model keeps the shell unchanged across its call.
- `Editing.TypeText`, `Editing.TypingAtEnd`: a .NET string is a sequence of UTF-16 code units, and a Dafny `string` is a sequence of Unicode scalar values. A character outside the Basic Multilingual Plane is two code units in the source but one `char` here. In the source the caret then moves by one while the text grows by two, so the caret-at-end property holds there only for characters inside that plane. `DrawString`'s widths likewise count code units where `Viewport` counts scalar values.
- `Text.IndexOf`, `Text.LastIndexOf`, `Text.EndsWith`: the source calls the culture-sensitive `string` overloads. The model uses ordinal comparison, which differs only for text with characters the culture comparison ignores.
- `Scripting.LoadVerdict`, `Scripting.ScriptCompiler.Load`: `BuildAssembly` is a total `Toolchain` function. An exception the C# compiler itself would raise is not modelled.
- `Scripting.ScriptCompiler.RunCommand`, `HackerConsole.Console.RunOrReport`: an exception from an extension's `RunScript` is not modelled. The run is recorded and the call returns.
- `Loop` sets `isAlive` (HackerConsole/Console.cs:121), then dispatches window events and draws until the console stops or the window closes. That loop and the window's `Closed` event are not modelled. The model's constructor leaves `isAlive` at the field default, false.
- `StringComparer.InvariantCulture` is an abstract order. The sort lemmas assume it is a total preorder, and `SortedPermutationUnique` and `SortByIgnoresArrangement` also assume it antisymmetric. The model sorts with a stable insertion sort; `Array.Sort` is an introsort, which is unstable above 16 elements. The invariant culture also ranks some distinct strings as equal (strings that differ only in ignorable characters), and such names may come out in a different order than the model's. Without registered scripts, Example/Program.cs:56-57 sorts the static `commands` array in place, which the model's constant `Program.commands` does not show; after that, later listings start from the sorted array. Under an antisymmetric order neither difference changes the listing (`SortByIgnoresArrangement`).
- `StartsWith` is modelled as an ordinal prefix test.
- `ToLower` is modelled on ASCII letters only. Other characters are left as they are. The source calls the current-culture `string.ToLower()` (HackerConsole/Console.cs:310, 313); the ASCII lowering assumes a current culture other than Turkish or Azeri, where 'I' lowers to 'ı' (U+0131) and "EXIT" or "CLEAR" would not match a built-in name.
- What an extension's `Load` and `RunScript` do is opaque. The model records each constructed instance and each `RunScript` call.
- An exception escaping a key handler would propagate out of the event loop. The model stops the handler at that point and sets a `faulted` flag.
- `Editing.HistoryUp`, `Editing.HistoryDown`: they keep the cursor within the history. They do not model the list indexing that would throw outside it, because the console's invariant rules that out.
- `HackerConsole.Console.SetCaretPosition` and `HackerConsole.Console.SetCommandPrefix` can move the caret outside the command text. `OnBackSpace` models the exception this can cause, and the range lemmas assume a caret in range.
- `IConsole.cs` and `ICommandScript.cs` hold only interfaces.
- `scripts/example.cs` is an extension body and is not part of this model.
- Concurrency is not modelled. The console is single-threaded.
