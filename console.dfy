/** The console window's text state (`HackerConsole.Console`) and the
    example program's built-in command handler (`HackerConsole.Program`).
    The window, the font and the file system are outside the model: their
    answers come in as a `Host` value and as integer grid sizes. */
module HackerConsole {
  import opened Text
  import opened Editing
  import opened Viewport
  import opened Scripting
  import Ordering

  newtype byte = x: int | 0 <= x < 256
  newtype uint32 = x: int | 0 <= x < 0x1_0000_0000

  const MaxByte: nat := 255
  const MaxUInt32: nat := 0xFFFF_FFFF

  datatype Color = Color(r: byte, g: byte, b: byte)

  /** The colour text is drawn in before anyone sets one. */
  const White := Color(255, 255, 255)
  const Black := Color(0, 0, 0)

  /** What calling a handler gave: its answer, or an exception. */
  datatype HandlerResult = Handled(claimed: bool) | Threw

  /** A registered command handler: the program's own `HandleCommand`, or
      one an extension added, given by its answer to each command and its
      arguments; what such a handler does to the console is not modelled. */
  datatype Handler =
    | ProgramHandler
    | ExtensionHandler(answer: (string, Option<seq<string>>) -> HandlerResult)

  /** The keys `WindowOnKeyPressed` distinguishes; every other key is `OtherKey`. */
  datatype Key = Return | BackSpace | Down | Up | Left | Right | Tab | OtherKey

  /** The outside world as the console and program see it: whether a file
      exists; the names under the scripts directory matching a search
      pattern, with the directory prefix removed, or `None` when the search
      throws (no scripts directory, or a pattern the file system refuses);
      the compiler and loader; and the string order used to sort the help
      listing. */
  datatype Host = Host(
    fileExists: string -> bool,
    scriptFiles: string -> Option<seq<string>>,
    toolchain: Toolchain,
    collation: (string, string) -> bool)

  /** The lines `WriteLine` adds for `s`: line breaks at either end are
      trimmed, then every remaining break starts a new line. */
  function LinesOf(s: string): (r: seq<string>) {
    var t := Trim(s, '\n');
    if '\n' in t then Split(t, '\n') else [t]
  }

  /** The lines `WriteLine` adds for a text it formats without arguments,
      or `None` when `String.Format` refuses the text and `WriteLine` throws
      before adding any. */
  function WriteLines(s: string): (r: Option<seq<string>>)
    ensures r.Some? <==> Format(s).Some?
    ensures NoBraces(s) ==> r == Some(LinesOf(s))
  {
    UnescapePlain(s);
    match Unescape(s)
    case None => None
    case Some(t) => Some(LinesOf(t))
  }

  /** `WriteLine` writes at least one line, none holding a line break, and
      the lines joined with breaks give back the trimmed text. */
  lemma LinesOfRejoin(s: string)
    ensures var r := LinesOf(s);
      && |r| >= 1
      && (forall i :: 0 <= i < |r| ==> '\n' !in r[i])
      && Join(r, "\n") == Trim(s, '\n')
      && ('\n' !in Trim(s, '\n') <==> |r| == 1)
  {
    JoinSplit(Trim(s, '\n'), '\n');
    SplitSpec(Trim(s, '\n'), '\n');
  }

  /** A text without line breaks is written as exactly one line, unchanged;
      without braces either, `WriteLine` writes it so. */
  lemma PlainLine(s: string)
    requires '\n' !in s
    ensures LinesOf(s) == [s]
    ensures NoBraces(s) ==> WriteLines(s) == Some([s])
  {
    assert s == [] || (s[0] != '\n' && s[|s| - 1] != '\n') by {
      if s != [] { assert s[0] in s && s[|s| - 1] in s; }
    }
    assert [] + s + [] == s;
    TrimUnique([], s, [], '\n');
  }

  /** The state a command can change, as a value: the scrollback, whether
      the console is running, the font colour and size, and the registry. */
  datatype Shell = Shell(
    lines: seq<string>,
    alive: bool,
    color: Color,
    size: uint32,
    registry: Registry)

  /** The state change a built-in command asks for. */
  datatype Action =
    | NoAction
    | Stop
    | ClearLines
    | SetColor(c: Color)
    | SetSize(n: uint32)
    | Install(v: Verdict)

  /** What `HandleCommand` does for a command, as a value: whether it claims
      the command, the state change, and the scrollback lines its
      `WriteLine` calls then add; or the exception it throws, after the state
      change and the lines written before it. */
  datatype Reply =
    | Reply(claimed: bool, action: Action, written: seq<string>)
    | Fault(action: Action, written: seq<string>)

  /** A claiming reply that performs `action`, writes `before`, then writes
      `text` through `WriteLine` without format arguments: a text `Format`
      refuses turns it into an exception after `before`. */
  function Then(action: Action, before: seq<string>, text: string): Reply {
    match WriteLines(text)
    case None => Fault(action, before)
    case Some(ls) => Reply(true, action, before + ls)
  }

  /** The usage texts of `font color` and `font size`, two lines each. */
  function ColorUsageLines(): seq<string> { ["Usage: font color R G B", "R, G, B = byte value 0-255"] }
  function SizeUsageLines(): seq<string> { ["Usage: font size SIZE", "SIZE = integer value"] }

  /** The same texts as the single strings `HandleCommand` writes. */
  function ColorUsage(): string { ColorUsageLines()[0] + "\n" + ColorUsageLines()[1] }
  function SizeUsage(): string { SizeUsageLines()[0] + "\n" + SizeUsageLines()[1] }

  lemma UsageLines()
    ensures WriteLines(ColorUsage()) == Some(ColorUsageLines())
    ensures WriteLines(SizeUsage()) == Some(SizeUsageLines())
  {
    TwoLines(ColorUsageLines()[0], ColorUsageLines()[1]);
    TwoLines(SizeUsageLines()[0], SizeUsageLines()[1]);
    ColorUsagePlain();
    ColorRangePlain();
    SizeUsagePlain();
    SizeRangePlain();
    NoBracesJoin(ColorUsageLines()[0], "\n", ColorUsageLines()[1]);
    NoBracesJoin(SizeUsageLines()[0], "\n", SizeUsageLines()[1]);
  }

  /** The usage texts hold no braces. */
  lemma ColorUsagePlain()
    ensures NoBraces(ColorUsageLines()[0])
  {
  }

  lemma ColorRangePlain()
    ensures NoBraces(ColorUsageLines()[1])
  {
  }

  lemma SizeUsagePlain()
    ensures NoBraces(SizeUsageLines()[0])
  {
  }

  lemma SizeRangePlain()
    ensures NoBraces(SizeUsageLines()[1])
  {
  }

  /** Two non-empty lines without breaks, joined by one, are written as
      those two lines. */
  lemma TwoLines(a: string, b: string)
    requires a != [] && b != [] && '\n' !in a && '\n' !in b
    ensures LinesOf(a + "\n" + b) == [a, b]
  {
    var m := a + "\n" + b;
    assert m[0] == a[0] && a[0] in a;
    assert m[|m| - 1] == b[|b| - 1] && b[|b| - 1] in b;
    assert [] + m + [] == m;
    TrimUnique([], m, [], '\n');
    assert m[|a|] == '\n';
    assert Join([a, b], "\n") == m;
    SplitJoin([a, b], '\n');
  }

  /** What `load-script` appends to the script's name. */
  const NotFoundSuffix := " not found"
  const LoadedSuffix := " loaded successfully"

  /** The header `help` writes first, as the one line it is written as. */
  function HelpHeaderLines(): seq<string> { ["Available commands:"] }
  function HelpHeader(): string { HelpHeaderLines()[0] }

  lemma HeaderLine()
    ensures WriteLines(HelpHeader()) == Some(HelpHeaderLines())
  {
    HeaderPlain();
    PlainLine(HelpHeader());
  }

  lemma HeaderPlain()
    ensures '\n' !in HelpHeader() && NoBraces(HelpHeader())
  {
  }

  /** The directory `load-script` looks in second. */
  const ScriptsDir := "scripts\\"

  /** Where `load-script` finds a script: as named, else under the scripts
      directory, else nowhere. */
  function ScriptPath(name: string, host: Host): Option<string> {
    if host.fileExists(name) then Some(name)
    else if host.fileExists(ScriptsDir + name) then Some(ScriptsDir + name)
    else None
  }

  /** `s` with each element preceded by ", ", as the help loop builds it. */
  function Prefixed(s: seq<string>): string {
    if s == [] then [] else Prefixed(s[..|s| - 1]) + ", " + s[|s| - 1]
  }

  /** Dropping the leading ", " of the built string joins the names with ", ". */
  lemma {:induction false} PrefixedJoin(s: seq<string>)
    requires |s| >= 1
    ensures |Prefixed(s)| >= 2 && Prefixed(s)[2..] == Join(s, ", ")
  {
    var init := s[..|s| - 1];
    var last := s[|s| - 1];
    if init == [] {
      assert s == [last];
      assert Prefixed(s) == [] + ", " + last;
    } else {
      PrefixedJoin(init);
      JoinAppend(init, last, ", ");
      assert s == init + [last];
      assert Prefixed(s)[2..] == Prefixed(init)[2..] + ", " + last;
    }
  }

  /** The help listing: every registered and built-in name, sorted by the
      host's order and joined with ", ". */
  function HelpLine(keys: seq<string>, le: (string, string) -> bool): string {
    Join(Ordering.SortBy(keys + Program.commands, le), ", ")
  }

  /** `load-script`'s reply: the script is looked up as named and then under
      the scripts directory; a script found is loaded, and the outcome is
      reported; the argument is required. */
  function LoadScriptReply(args: Option<seq<string>>, host: Host): Reply {
    match args
    case None => Fault(NoAction, [])
    case Some(a) =>
      if |a| == 0 then Fault(NoAction, [])
      else
        match ScriptPath(a[0], host)
        case None => Reply(true, NoAction, LinesOf(a[0] + NotFoundSuffix))
        case Some(path) => LoadedReply(a[0], path, host.toolchain)
  }

  /** The reply for a script found at `path`: it is loaded, then the success
      line or the loader's error text is written. */
  function LoadedReply(name: string, path: string, tc: Toolchain): Reply {
    VerdictReply(name, LoadVerdict(path, tc))
  }

  /** The loader's verdict `v` on script `name` is registered, then the
      success line (formatted with the name as argument) or the verdict's
      error text (formatted without arguments) is written; an exception from
      the loader escapes after what it registered. */
  function VerdictReply(name: string, v: Verdict): Reply {
    match v
    case Accept(_) => Reply(true, Install(v), LinesOf(name + LoadedSuffix))
    case Reject(message, _) => Then(Install(v), [], message)
    case Raise(_) => Fault(Install(v), [])
  }

  /** What a verdict's reply does to the shell: `v` is registered, then the
      reply's lines are written; an acceptance writes the success line, and a
      rejection its message, or throws when `Format` refuses the message. */
  lemma VerdictEffect(s: Shell, name: string, v: Verdict)
    ensures var rep := VerdictReply(name, v);
      && Effect(s, rep) == s.(registry := Register(s.registry, v), lines := s.lines + rep.written)
      && (v.Accept? ==> rep == Reply(true, Install(v), LinesOf(name + LoadedSuffix)))
      && (v.Reject? ==> (rep.Fault? <==> WriteLines(v.message).None?))
      && (v.Reject? && rep.Reply? ==> rep.written == WriteLines(v.message).value)
      && (v.Raise? ==> rep.Fault? && rep.written == [])
  {
    var rep := VerdictReply(name, v);
    assert rep.action == Install(v);
    match v
    case Accept(_) =>
    case Reject(message, _) =>
      assert rep == Then(Install(v), [], message);
    case Raise(_) =>
  }

  /** What `help` does to the shell: the header line, then `line`, are
      written; a listing `Format` refuses throws after the header. */
  lemma HelpEffect(s: Shell, keys: seq<string>, host: Host, line: string)
    requires line == HelpLine(keys, host.collation)
    ensures HandlerResultOf(s, HelpReply(keys, host), host) ==
      match WriteLines(line)
      case None => (s.(lines := s.lines + HelpHeaderLines()), Threw)
      case Some(ls) => (s.(lines := s.lines + HelpHeaderLines() + ls), Handled(true))
  {
    if WriteLines(line).Some? {
      var ls := WriteLines(line).value;
      assert s.lines + (HelpHeaderLines() + ls) == s.lines + HelpHeaderLines() + ls;
    }
  }

  /** `help`'s reply: a header line, then the listing. */
  function HelpReply(keys: seq<string>, host: Host): Reply {
    Then(NoAction, HelpHeaderLines(), HelpLine(keys, host.collation))
  }

  /** `font color R G B`: three bytes set the colour; too few arguments or
      any argument that is not a byte give the usage text instead. */
  function FontColorReply(a: seq<string>): Reply {
    if |a| < 4 then Reply(true, NoAction, ColorUsageLines())
    else
      match ParseColor(a[1], a[2], a[3])
      case Some(c) => Reply(true, SetColor(c), [])
      case None => Reply(true, NoAction, ColorUsageLines())
  }

  /** The colour three `byte.Parse` calls read, when all three succeed. */
  function ParseColor(red: string, green: string, blue: string): Option<Color> {
    var r := ParseUnsigned(red, MaxByte);
    var g := ParseUnsigned(green, MaxByte);
    var b := ParseUnsigned(blue, MaxByte);
    if r.Some? && g.Some? && b.Some? then Some(Color(r.value as byte, g.value as byte, b.value as byte))
    else None
  }

  /** `font size N`: an unsigned 32-bit number sets the size; a missing one
      gives the usage text twice, an unparsable one once. */
  function FontSizeReply(a: seq<string>): Reply {
    if |a| < 2 then Reply(true, NoAction, SizeUsageLines() + SizeUsageLines())
    else
      var n := ParseUnsigned(a[1], MaxUInt32);
      if n.Some? then Reply(true, SetSize(n.value as uint32), [])
      else Reply(true, NoAction, SizeUsageLines())
  }

  function FontSizePrefix(): string { "Font Size: " }
  function ColorWord(): string { "color" }
  function SizeWord(): string { "size" }

  /** `font`'s reply: the size with no arguments, the `color` and `size`
      subcommands, and any other subcommand claimed and ignored. */
  function FontReply(args: Option<seq<string>>, size: uint32): Reply {
    match args
    case None => Reply(true, NoAction, LinesOf(FontSizePrefix() + NatToString(size as nat)))
    case Some(a) =>
      if |a| == 0 then Fault(NoAction, [])
      else if a[0] == ColorWord() then FontColorReply(a)
      else if a[0] == SizeWord() then FontSizeReply(a)
      else Reply(true, NoAction, [])
  }

  /** The whole behaviour of `HandleCommand` for a lower-cased command name
      and its arguments, given the registered names and the font size. */
  function Respond(command: string, args: Option<seq<string>>, host: Host,
                   keys: seq<string>, size: uint32): Reply
  {
    if command == "exit" || command == "quit" then Reply(true, Stop, [])
    else if command == "clear" then Reply(true, ClearLines, [])
    else if command == "load-script" then LoadScriptReply(args, host)
    else if command == "help" then HelpReply(keys, host)
    else if command == "font" then FontReply(args, size)
    else Reply(false, NoAction, [])
  }

  /** The state after a reply: its action, then its lines, also when it
      ends in an exception. */
  function Effect(s: Shell, rep: Reply): Shell {
    var s1 := match rep.action
      case NoAction => s
      case Stop => s.(alive := false)
      case ClearLines => s.(lines := [])
      case SetColor(c) => s.(color := c)
      case SetSize(n) => s.(size := n)
      case Install(v) => s.(registry := Register(s.registry, v));
    s1.(lines := s1.lines + rep.written)
  }

  /** One handler called with a command, as a value. */
  function HandlerStep(s: Shell, h: Handler, command: string, args: Option<seq<string>>,
                       host: Host): (Shell, HandlerResult)
  {
    match h
    case ExtensionHandler(answer) => (s, answer(command, args))
    case ProgramHandler => HandlerResultOf(s, Respond(command, args, host, s.registry.order, s.size), host)
  }

  /** The outcome of offering a command to handlers in turn. */
  datatype Outcome = Outcome(shell: Shell, claimed: bool, threw: bool)

  /** Every handler is called, in order, whatever the earlier ones answered;
      an exception ends the round. */
  function Dispatch(s: Shell, hs: seq<Handler>, command: string, args: Option<seq<string>>,
                    host: Host): Outcome
    decreases |hs|, 1
  {
    if hs == [] then Outcome(s, false, false) else DispatchLast(s, hs, command, args, host)
  }

  /** The turn of the last handler of `hs`, after the ones before it. */
  function DispatchLast(s: Shell, hs: seq<Handler>, command: string, args: Option<seq<string>>,
                        host: Host): Outcome
    requires hs != []
    decreases |hs|, 0
  {
    var o := Dispatch(s, hs[..|hs| - 1], command, args, host);
    if o.threw then o
    else
      var (s', res) := HandlerStep(o.shell, hs[|hs| - 1], command, args, host);
      match res
      case Threw => Outcome(s', o.claimed, true)
      case Handled(c) => Outcome(s', o.claimed || c, false)
  }

  /** The candidates `AutoComplete` offers for `token`: with no context,
      every handler command and every registered name; after `load-script`,
      the script files starting with the token; otherwise none. `None`
      when one of the two file searches throws. */
  function Candidates(context: string, token: string, host: Host,
                      handlerCommands: seq<string>, keys: seq<string>): Option<seq<string>>
  {
    if context == [] then Some(handlerCommands + keys)
    else if context == "load-script" then
      match (host.scriptFiles(token + "*.cs"), host.scriptFiles(token + "*.dll"))
      case (Some(cs), Some(dlls)) => Some(cs + dlls)
      case _ => None
    else Some([])
  }

  /** The state of a console a key press acts on, as a value: the edit line,
      the history, the shell state, whether an exception escaped, and the
      registry's script runs. */
  datatype Session = Session(edit: EditState, history: seq<string>, shell: Shell,
                             faulted: bool, runs: seq<Run>)

  /** An unclaimed command: the registry runs it when it knows the name,
      otherwise the line is reported as not a valid command, or the report
      throws when `Format` refuses the line; the last component says whether
      it threw. */
  function Fallback(s: Shell, runs: seq<Run>, c: Command, line: string): (Shell, seq<Run>, bool) {
    if c.name in s.registry.commands then (s, runs + [Run(s.registry.commands[c.name], c.args)], false)
    else
      match WriteLines(line + NotValidSuffix())
      case None => (s, runs, true)
      case Some(ls) => (s.(lines := s.lines + ls), runs, false)
  }

  /** The Return key: the line goes into the history, the caret and the
      history cursor are reset, every handler is offered the command, and
      the registry is tried only when none claimed it; an exception from a
      handler or from the report leaves the line in place and marks the
      console faulted. */
  function ReturnStep(w: Session, handlers: seq<Handler>, host: Host): Session {
    var c := Tokenize(w.edit.buffer);
    ReturnWith(w, c, Dispatch(w.shell, handlers, c.name, c.args, host))
  }

  /** `ReturnStep` once the line is tokenized as `c` and the handlers'
      outcome is `o`. */
  function ReturnWith(w: Session, c: Command, o: Outcome): Session {
    var line := w.edit.buffer;
    var (cleared, history) := Submit(w.edit, w.history);
    var kept := EditState(line, 0, 0);
    if o.threw then Session(kept, history, o.shell, true, w.runs)
    else if o.claimed then Session(cleared, history, o.shell, w.faulted, w.runs)
    else
      var (shell, runs, threw) := Fallback(o.shell, w.runs, c, line);
      if threw then Session(kept, history, shell, true, runs)
      else Session(cleared, history, shell, w.faulted, runs)
  }

  /** The Tab key: the text after the last space is completed, with the
      first word as context, and the caret goes to the end; several matches
      are listed on a new line. A file search that throws, or a match
      `Format` refuses, ends the key press with an exception that leaves the
      edit line as it was and marks the console faulted; the search throws
      before anything is written. */
  function TabStep(w: Session, handlerCommands: seq<string>, host: Host): Session {
    var t := TabSplit(w.edit.buffer);
    match Candidates(t.context, t.token, host, handlerCommands, w.shell.registry.order)
    case None => w.(faulted := true)
    case Some(cands) => TabWith(w, t, cands)
  }

  /** `TabStep` once the candidates `cands` are found. */
  function TabWith(w: Session, t: TabTarget, cands: seq<string>): Session {
    var ms := Matches(cands, t.token);
    var l := AvailableListing(ms);
    var buffer := t.head + Complete(t.token, cands);
    var listed := if |ms| > 1 then [AvailablePrefix() + l.appended] else [];
    var shell := w.shell.(lines := w.shell.lines + listed);
    if |ms| > 1 && l.threw then w.(shell := shell, faulted := true)
    else w.(edit := EditState(buffer, |buffer|, w.edit.cursor), shell := shell)
  }

  /** What completing `token` against the candidates `found` gives: when
      the search threw, an exception and no new line; otherwise the
      completion, one "Available: " line when several match, and an
      exception exactly when one of those cannot be formatted. `r` is the
      text returned and `before`, `after` the scrollback around the call. */
  predicate Completed(found: Option<seq<string>>, token: string, r: string, thrown: bool,
                      before: seq<string>, after: seq<string>)
  {
    match found
    case None => thrown && after == before
    case Some(cands) =>
      var ms := Matches(cands, token);
      var l := AvailableListing(ms);
      && (thrown <==> |ms| > 1 && l.threw)
      && (!thrown ==> r == Complete(token, cands))
      && after == before + (if |ms| > 1 then [AvailablePrefix() + l.appended] else [])
  }

  /** `TabStep` in terms of what `AutoComplete` gives back for the token
      and context of the buffer, and the scrollback it leaves. */
  lemma TabStepOf(w: Session, handlerCommands: seq<string>, host: Host, auto: string, thrown: bool,
                  lines: seq<string>)
    requires var t := TabSplit(w.edit.buffer);
      Completed(Candidates(t.context, t.token, host, handlerCommands, w.shell.registry.order),
                t.token, auto, thrown, w.shell.lines, lines)
    ensures var t := TabSplit(w.edit.buffer);
      var buffer := t.head + auto;
      TabStep(w, handlerCommands, host) ==
        if thrown then w.(shell := w.shell.(lines := lines), faulted := true)
        else w.(edit := EditState(buffer, |buffer|, w.edit.cursor), shell := w.shell.(lines := lines))
  {
    var t := TabSplit(w.edit.buffer);
    match Candidates(t.context, t.token, host, handlerCommands, w.shell.registry.order)
    case None =>
      assert w.shell.(lines := lines) == w.shell;
    case Some(cands) =>
  }

  /** One key press. */
  function KeyStep(w: Session, key: Key, handlers: seq<Handler>, handlerCommands: seq<string>,
                   host: Host): Session
    requires CursorInRange(w.edit, w.history)
  {
    match key
    case Return => ReturnStep(w, handlers, host)
    case BackSpace => if BackspaceDefined(w.edit) then w.(edit := Backspace(w.edit)) else w.(faulted := true)
    case Down => w.(edit := HistoryDown(w.edit, w.history))
    case Up => w.(edit := HistoryUp(w.edit, w.history))
    case Left => w.(edit := MoveLeft(w.edit))
    case Right => w.(edit := MoveRight(w.edit))
    case Tab => TabStep(w, handlerCommands, host)
    case OtherKey => w
  }

  class Console {
    var consoleLines: seq<string>
    var commandHistory: seq<string>
    var preCommand: string
    var commandString: string
    var commandHandler: seq<Handler>
    var handlerCommands: seq<string>
    var historyLine: int
    /** The grid row the next drawn entry starts on. */
    var consoleLine: int
    /** The caret column, counted from the start of the prompt prefix. */
    var caretPosition: int
    var isAlive: bool
    var fontColor: Color
    var fontSize: uint32
    var backgroundColor: Color
    /** An exception escaped a key handler. */
    var faulted: bool
    /** The extension registry the console shares with the loader. */
    const scripts: ScriptCompiler

    ghost predicate Valid()
      reads this`historyLine, this`commandHistory, scripts`scriptCommands, scripts`keyOrder
      reads scripts`instances, scripts`loaded
    {
      0 <= historyLine <= |commandHistory| && scripts.Valid()
    }

    /** The caret as a column of the command text (the `CaretPosition` property). */
    function CaretPosition(): int
      reads this`caretPosition, this`preCommand
    {
      caretPosition - |preCommand|
    }

    /** The edit line as a value. */
    function Edit(): EditState
      reads this`commandString, this`caretPosition, this`preCommand, this`historyLine
    {
      EditState(commandString, CaretPosition(), historyLine)
    }

    ghost function ShellState(): Shell
      reads this`consoleLines, this`isAlive, this`fontColor, this`fontSize
      reads scripts`scriptCommands, scripts`keyOrder, scripts`instances, scripts`loaded
    {
      Shell(consoleLines, isAlive, fontColor, fontSize, scripts.State())
    }

    /** Everything a key press can change, as a value. */
    ghost function World(): Session
      reads this`commandString, this`caretPosition, this`preCommand, this`historyLine
      reads this`commandHistory, this`faulted, this`consoleLines, this`isAlive
      reads this`fontColor, this`fontSize
      reads scripts`scriptCommands, scripts`keyOrder, scripts`instances, scripts`loaded, scripts`runs
    {
      Session(Edit(), commandHistory, ShellState(), faulted, scripts.runs)
    }

    constructor (registry: ScriptCompiler)
      requires registry.Valid()
      ensures Valid() && scripts == registry
      ensures consoleLines == [] && commandHistory == [] && commandString == []
      ensures preCommand == "Command> " && CaretPosition() == 0
      ensures commandHandler == [] && handlerCommands == [] && historyLine == 0
      ensures !isAlive && fontColor == White && fontSize == 12 && backgroundColor == Black
      ensures !faulted
    {
      consoleLines := [];
      commandHistory := [];
      preCommand := "Command> ";
      commandString := [];
      commandHandler := [];
      handlerCommands := [];
      historyLine := 0;
      consoleLine := 0;
      caretPosition := |"Command> "|;
      isAlive := false;
      fontColor := White;
      fontSize := 12;
      backgroundColor := Black;
      faulted := false;
      scripts := registry;
    }

    method Shutdown()
      modifies this`isAlive
      ensures !isAlive
    {
      isAlive := false;
    }

    method Clear()
      modifies this`consoleLines
      ensures consoleLines == []
    {
      consoleLines := [];
    }

    method SetFontColor(r: byte, g: byte, b: byte)
      modifies this`fontColor
      ensures fontColor == Color(r, g, b)
    {
      fontColor := Color(r, g, b);
    }

    method SetBackgroundColor(r: byte, g: byte, b: byte)
      modifies this`backgroundColor
      ensures backgroundColor == Color(r, g, b)
    {
      backgroundColor := Color(r, g, b);
    }

    method SetFontSize(size: uint32)
      modifies this`fontSize
      ensures fontSize == size
    {
      fontSize := size;
    }

    /** Sets the caret relative to the current prefix. */
    method SetCaretPosition(position: int)
      modifies this`caretPosition
      ensures CaretPosition() == position
    {
      caretPosition := |preCommand| + position;
    }

    /** Replaces the prompt prefix; the caret keeps its absolute column, so
        its position in the command text shifts by the change in length. */
    method SetCommandPrefix(str: string)
      modifies this`preCommand
      ensures preCommand == str
      ensures CaretPosition() == old(CaretPosition()) + |old(preCommand)| - |str|
    {
      preCommand := str;
    }

    method AddCommandHandler(handler: Handler, commands: seq<string>)
      modifies this`commandHandler, this`handlerCommands
      ensures commandHandler == old(commandHandler) + [handler]
      ensures handlerCommands == old(handlerCommands) + commands
    {
      commandHandler := commandHandler + [handler];
      handlerCommands := handlerCommands + commands;
    }

    /** Appends to line `index`; an index outside the scrollback is ignored,
        and a text `Format` refuses throws before anything changes. */
    method Write(index: int, str: string) returns (thrown: bool)
      modifies this`consoleLines
      ensures |consoleLines| == |old(consoleLines)|
      ensures thrown <==> 0 <= index < |old(consoleLines)| && Format(str).None?
      ensures index < 0 || index >= |old(consoleLines)| || thrown ==> consoleLines == old(consoleLines)
      ensures 0 <= index < |old(consoleLines)| && !thrown ==>
        consoleLines == old(consoleLines)[index := old(consoleLines)[index] + Format(str).value]
    {
      if index < 0 || index >= |consoleLines| {
        return false;
      }
      var s := Format(str);
      if s.None? {
        return true;
      }
      consoleLines := consoleLines[index := consoleLines[index] + s.value];
      return false;
    }

    /** Appends the lines of `str` and returns the index of the last one; a
        text `Format` refuses throws before anything is added. */
    method WriteLine(str: string) returns (index: int, thrown: bool)
      modifies this`consoleLines
      ensures thrown <==> WriteLines(str).None?
      ensures thrown ==> consoleLines == old(consoleLines)
      ensures !thrown ==> consoleLines == old(consoleLines) + WriteLines(str).value
      ensures ShellState() == old(ShellState()).(lines := consoleLines)
      ensures !thrown ==> index == |consoleLines| - 1 && index >= |old(consoleLines)|
    {
      var s := Format(str);
      if s.None? {
        // no index: the exception leaves `WriteLine` first
        return -1, true;
      }
      index := AddLines(s.value);
      thrown := false;
    }

    /** `WriteLine` with format arguments, as every call with a placeholder
        makes it: the arguments' text is taken as it is, so it never throws
        and adds the lines of the formatted `text`. */
    method WriteFormatted(text: string) returns (index: int)
      modifies this`consoleLines
      ensures consoleLines == old(consoleLines) + LinesOf(text)
      ensures ShellState() == old(ShellState()).(lines := consoleLines)
      ensures index == |consoleLines| - 1 && index >= |old(consoleLines)|
    {
      index := AddLines(Trim(text, '\n'));
    }

    /** Adds the formatted text `s`: split at its line breaks when it has
        any, whole otherwise. */
    method AddLines(s: string) returns (index: int)
      modifies this`consoleLines
      ensures consoleLines == old(consoleLines) + if '\n' in s then Split(s, '\n') else [s]
      ensures ShellState() == old(ShellState()).(lines := consoleLines)
      ensures index == |consoleLines| - 1 && index >= |old(consoleLines)|
    {
      if '\n' in s {
        var items := Split(s, '\n');
        for i := 0 to |items|
          invariant consoleLines == old(consoleLines) + items[..i]
        {
          consoleLines := consoleLines + [items[i]];
        }
        assert items[..|items|] == items;
      } else {
        consoleLines := consoleLines + [s];
      }
      index := |consoleLines| - 1;
    }

    /** The rows `str` is drawn as from grid row `y` at width `w`; each row
        drawn advances `consoleLine`. A non-empty text at a negative width
        throws before drawing. */
    method DrawString(str: string, y: int, w: int) returns (rows: seq<Row>, thrown: bool)
      requires RowsDefined(str, w)
      modifies this`consoleLine
      ensures rows == Place(Rows(str, w), y)
      ensures thrown <==> DrawThrows(str, w)
      ensures consoleLine == old(consoleLine) + |rows|
    {
      rows := [];
      thrown := false;
      if |str| > w {
        if w < 0 {
          // the first piece has the negative length `w`, which `Substring`
          // refuses; an empty text draws no piece at all
          thrown := |str| > 0;
          return;
        }
        rows := DrawPieces(str, y, w);
      } else {
        rows := [Row(y, str)];
        consoleLine := consoleLine + 1;
      }
    }

    /** The loop of `DrawString` for a text longer than the width: every
        `w` characters start a new row. */
    method DrawPieces(str: string, y: int, w: int) returns (rows: seq<Row>)
      requires w >= 1 && |str| > w
      modifies this`consoleLine
      ensures rows == Place(WrapRows(str, w), y)
      ensures consoleLine == old(consoleLine) + |rows|
    {
      rows := [];
      ghost var all := Place(WrapRows(str, w), y);
      var index := 0;
      var unread := |str|;
      while unread > 0
        invariant 0 <= index <= |all|
        invariant unread == |str| - index * w
        invariant unread > 0 <==> index < |all|
        invariant rows == all[..index]
        invariant consoleLine == old(consoleLine) + index
        decreases unread
      {
        PieceStep(str, w, index);
        var strIndex := index * w;
        var strRead := w;
        if strIndex >= |str| {
          assert false;
          strIndex := (|str| - 1) - unread;
        }
        if strIndex + w > |str| {
          strRead := unread;
        }
        rows := rows + [Row(y + index, str[strIndex..strIndex + strRead])];
        assert all[..index + 1] == all[..index] + [all[index]];
        index := index + 1;
        unread := unread - w;
        consoleLine := consoleLine + 1;
      }
      assert rows == all;
    }

    /** The rows drawn for a `w`-column, `h`-row grid: the trailing entries
        that fit above the prompt, stacked from row 0, then the prompt at
        row `h`; at a negative width, the first non-empty text throws. */
    method Draw(w: int, h: int) returns (rows: seq<Row>, thrown: bool)
      requires forall i :: 0 <= i < |Visible(consoleLines, h)| ==> RowsDefined(Visible(consoleLines, h)[i], w)
      requires RowsDefined(preCommand + commandString, w)
      modifies this`consoleLine
      ensures rows == Layout(Visible(consoleLines, h), w) + Place(Rows(preCommand + commandString, w), h)
      ensures thrown <==>
        (exists i :: 0 <= i < |Visible(consoleLines, h)| && DrawThrows(Visible(consoleLines, h)[i], w))
        || DrawThrows(preCommand + commandString, w)
      ensures consoleLine == |rows|
    {
      consoleLine := 0;
      var shown := ShownEntries(h);
      rows, thrown := DrawEntries(shown, w);
      ghost var text := preCommand + commandString;
      if thrown {
        assert Place(Rows(text, w), h) == [];
        return;
      }
      var prompt;
      prompt, thrown := DrawString(preCommand + commandString, h, w);
      rows := rows + prompt;
    }

    /** The trailing entries that fit above the prompt of an `h`-row grid. */
    method ShownEntries(h: int) returns (shown: seq<string>)
      ensures shown == Visible(consoleLines, h)
    {
      shown := [];
      if |consoleLines| > 0 {
        var skip := if |consoleLines| - (h - 1) > 0 then |consoleLines| - (h - 1) else 0;
        shown := if skip >= |consoleLines| then [] else consoleLines[skip..];
      }
    }

    /** The loop of `Draw` over the scrollback entries shown, stacked from
        row 0; at a negative width, the first non-empty entry throws. */
    method DrawEntries(shown: seq<string>, w: int) returns (rows: seq<Row>, thrown: bool)
      requires forall i :: 0 <= i < |shown| ==> RowsDefined(shown[i], w)
      requires consoleLine == 0
      modifies this`consoleLine
      ensures rows == Layout(shown, w)
      ensures thrown <==> exists i :: 0 <= i < |shown| && DrawThrows(shown[i], w)
      ensures thrown ==> w < 0 && rows == []
      ensures consoleLine == |rows|
    {
      rows := [];
      thrown := false;
      for i := 0 to |shown|
        invariant rows == Layout(shown[..i], w)
        invariant consoleLine == |rows|
        invariant forall j :: 0 <= j < i ==> !DrawThrows(shown[j], w)
      {
        assert shown[..i + 1][..i] == shown[..i];
        var r;
        r, thrown := DrawString(shown[i], consoleLine, w);
        if thrown {
          LayoutNegative(shown[..i], w);
          LayoutNegative(shown, w);
          return [], true;
        }
        rows := rows + r;
      }
      assert shown[..|shown|] == shown;
    }

    /** Completes `str` against the candidates for context `cmd`: a unique
        match is returned with a space; with several, they are listed on a
        new "Available: " line and `str` comes back unchanged. A file search
        that throws leaves before anything is written. */
    method AutoComplete(str: string, cmd: string, host: Host) returns (r: string, thrown: bool)
      requires scripts.Valid()
      modifies this`consoleLines
      ensures Completed(Candidates(cmd, str, host, handlerCommands, scripts.keyOrder), str, r, thrown,
                        old(consoleLines), consoleLines)
    {
      var autoList, searchThrew := CandidateList(cmd, str, host);
      if searchThrew {
        return str, true;
      }
      var num := CountMatches(autoList, str);
      if num == 0 {
        return str, false;
      }
      if num == 1 {
        FirstMatchIsFirstOfMatches(autoList, str);
        var found := FirstMatch(autoList, str);
        return found.value + " ", false;
      }
      thrown := ListMatches(autoList, str);
      return str, thrown;
    }

    /** The names `AutoComplete` completes against in context `cmd`, or
        `thrown` when a file search throws. */
    method CandidateList(cmd: string, str: string, host: Host) returns (autoList: seq<string>, thrown: bool)
      requires scripts.Valid()
      ensures var found := Candidates(cmd, str, host, handlerCommands, scripts.keyOrder);
        (thrown <==> found.None?) && (!thrown ==> autoList == found.value)
    {
      autoList := [];
      thrown := false;
      if cmd == [] {
        autoList := autoList + handlerCommands;
        var scriptCommands := scripts.GetCommands();
        if scriptCommands.Some? {
          autoList := autoList + scriptCommands.value;
        }
      } else if cmd == "load-script" {
        var cs := host.scriptFiles(str + "*.cs");
        if cs.None? {
          return [], true;
        }
        autoList := autoList + cs.value;
        var dlls := host.scriptFiles(str + "*.dll");
        if dlls.None? {
          return [], true;
        }
        autoList := autoList + dlls.value;
      }
    }

    /** How many candidates start with `str`. */
    static method CountMatches(autoList: seq<string>, str: string) returns (num: int)
      ensures num == |Matches(autoList, str)|
    {
      num := 0;
      for i := 0 to |autoList|
        invariant num == |Matches(autoList[..i], str)|
      {
        assert autoList[..i + 1][..i] == autoList[..i];
        if StartsWith(autoList[i], str) {
          num := num + 1;
        }
      }
      assert autoList[..|autoList|] == autoList;
    }

    /** Several matches: a new "Available: " line gets each of them and a
        space, in candidate order, until one `Format` refuses throws. */
    method ListMatches(autoList: seq<string>, str: string) returns (thrown: bool)
      modifies this`consoleLines
      ensures var l := AvailableListing(Matches(autoList, str));
        consoleLines == old(consoleLines) + [AvailablePrefix() + l.appended] && thrown == l.threw
    {
      ghost var pre := consoleLines;
      var index := StartListing();
      ghost var line := AvailablePrefix();
      assert autoList[..0] == [] && AvailablePrefix() + [] == line;
      for i := 0 to |autoList|
        invariant consoleLines == pre + [line] && index == |pre|
        invariant line == AvailablePrefix() + AvailableListing(Matches(autoList[..i], str)).appended
        invariant !AvailableListing(Matches(autoList[..i], str)).threw
      {
        ListingStep(autoList, i, str);
        if StartsWith(autoList[i], str) {
          thrown := WriteMatch(index, autoList[i], pre, line);
          if thrown {
            ListingStopsAt(autoList, i, str);
            return;
          }
          line := line + Format(autoList[i] + " ").value;
        }
      }
      assert autoList[..|autoList|] == autoList;
      thrown := false;
    }

    /** One match and a space appended to the last line `line`. */
    method WriteMatch(index: int, name: string, ghost pre: seq<string>, ghost line: string) returns (thrown: bool)
      requires consoleLines == pre + [line] && index == |pre|
      modifies this`consoleLines
      ensures thrown <==> Format(name + " ").None?
      ensures thrown ==> consoleLines == pre + [line]
      ensures !thrown ==> consoleLines == pre + [line + Format(name + " ").value]
    {
      thrown := Write(index, name + " ");
      if !thrown {
        assert (pre + [line])[index := line + Format(name + " ").value] == pre + [line + Format(name + " ").value];
      }
    }

    /** The "Available: " line the matches are written onto. */
    method StartListing() returns (index: int)
      modifies this`consoleLines
      ensures consoleLines == old(consoleLines) + [AvailablePrefix()] && index == |old(consoleLines)|
    {
      AvailablePrefixPlain();
      PlainLine(AvailablePrefix());
      var th;
      index, th := WriteLine(AvailablePrefix());
    }

    method OnTab(host: Host)
      requires scripts.Valid()
      modifies this`commandString, this`caretPosition, this`consoleLines, this`faulted
      ensures World() == TabStep(old(World()), handlerCommands, host)
    {
      ghost var w0 := World();
      var t := TabTargetOf(commandString);
      var auto, thrown := AutoComplete(t.token, t.context, host);
      assert w0.edit.buffer == commandString && w0.shell.registry.order == scripts.keyOrder;
      TabStepOf(w0, handlerCommands, host, auto, thrown, consoleLines);
      if thrown {
        faulted := true;
        return;
      }
      commandString := t.head + auto;
      caretPosition := |preCommand| + |commandString|;
    }

    /** Where Tab cuts the command text: after the last space, with the first
        word as context; with no space, the whole text and no context. */
    static method TabTargetOf(buffer: string) returns (t: TabTarget)
      ensures t == TabSplit(buffer)
    {
      if ' ' in buffer {
        var last := LastIndexOf(buffer, ' ') + 1;
        t := TabTarget(buffer[..last], buffer[last..], buffer[..IndexOf(buffer, ' ')]);
      } else {
        t := TabTarget([], buffer, []);
      }
    }

    /** Offers a command to one handler. */
    method CallHandler(h: Handler, command: string, args: Option<seq<string>>, host: Host)
      returns (r: HandlerResult)
      requires Valid()
      modifies this`consoleLines, this`isAlive, this`fontColor, this`fontSize
      modifies scripts`scriptCommands, scripts`keyOrder, scripts`instances, scripts`loaded
      ensures Valid()
      ensures (ShellState(), r) == HandlerStep(old(ShellState()), h, command, args, host)
    {
      match h
      case ExtensionHandler(answer) =>
        r := answer(command, args);
      case ProgramHandler =>
        r := Program.HandleCommand(this, host, command, args);
    }

    method OnReturn(host: Host)
      requires Valid()
      modifies this`historyLine, this`caretPosition, this`commandHistory, this`commandString
      modifies this`consoleLines, this`isAlive, this`fontColor, this`fontSize, this`faulted
      modifies scripts`scriptCommands, scripts`keyOrder, scripts`instances, scripts`loaded, scripts`runs
      ensures Valid()
      ensures World() == ReturnStep(old(World()), commandHandler, host)
    {
      ghost var w0 := World();
      Record();
      var name, args := SplitCommand(commandString);
      var claimed, threw := OfferAll(name, args, host);
      Conclude(w0, name, args, claimed, threw);
    }

    /** The line goes into the history; the caret and the history cursor
        are reset. */
    method Record()
      requires Valid()
      modifies this`historyLine, this`caretPosition, this`commandHistory
      ensures Valid()
      ensures commandHistory == old(commandHistory) + [commandString]
      ensures historyLine == 0 && caretPosition == |preCommand|
    {
      historyLine := 0;
      caretPosition := |preCommand| + 0;
      commandHistory := commandHistory + [commandString];
    }

    /** After the handlers: a throw marks the console faulted and keeps the
        line; otherwise an unclaimed command goes to the registry, and the
        line is cleared unless reporting it throws. */
    method Conclude(ghost w0: Session, name: string, args: Option<seq<string>>, claimed: bool, threw: bool)
      requires w0.edit.buffer == commandString && w0.faulted == faulted && w0.runs == scripts.runs
      requires commandHistory == w0.history + [commandString] && historyLine == 0
      requires caretPosition == |preCommand|
      modifies this`commandString, this`faulted, this`consoleLines, scripts`runs
      ensures World() == ReturnWith(w0, Command(name, args), Outcome(old(ShellState()), claimed, threw))
    {
      if threw {
        faulted := true;
        return;
      }
      if !claimed {
        var thrown := RunOrReport(name, args, commandString);
        if thrown {
          faulted := true;
          return;
        }
      }
      commandString := [];
    }

    /** The command name, lower-cased, and the arguments of a submitted line. */
    static method SplitCommand(line: string) returns (name: string, args: Option<seq<string>>)
      ensures Tokenize(line) == Command(name, args)
    {
      var command := Split(line, ' ');
      args := None;
      if |command| > 1 {
        args := Some(command[1..]);
      }
      name := ToLower(command[0]);
    }

    /** Offers the command to every handler in turn, stopping at the first
        that throws. */
    method OfferAll(name: string, args: Option<seq<string>>, host: Host) returns (claimed: bool, threw: bool)
      requires Valid()
      modifies this`consoleLines, this`isAlive, this`fontColor, this`fontSize
      modifies scripts`scriptCommands, scripts`keyOrder, scripts`instances, scripts`loaded
      ensures Valid()
      ensures Dispatch(old(ShellState()), commandHandler, name, args, host) == Outcome(ShellState(), claimed, threw)
    {
      ghost var s0 := ShellState();
      claimed := false;
      for i := 0 to |commandHandler|
        invariant Valid()
        invariant Dispatch(s0, commandHandler[..i], name, args, host) == Outcome(ShellState(), claimed, false)
      {
        assert commandHandler[..i + 1][..i] == commandHandler[..i];
        assert Dispatch(s0, commandHandler[..i + 1], name, args, host)
          == DispatchLast(s0, commandHandler[..i + 1], name, args, host);
        var r := CallHandler(commandHandler[i], name, args, host);
        if r.Threw? {
          DispatchKeepsThrow(s0, commandHandler, i + 1, name, args, host);
          return claimed, true;
        }
        if r.claimed {
          claimed := true;
        }
      }
      assert commandHandler[..|commandHandler|] == commandHandler;
      threw := false;
    }

    /** No handler claimed the command: the registry runs it, or the line is
        reported as not a valid command. */
    method RunOrReport(name: string, args: Option<seq<string>>, line: string) returns (thrown: bool)
      modifies this`consoleLines, scripts`runs
      ensures (ShellState(), scripts.runs, thrown) == Fallback(old(ShellState()), old(scripts.runs), Command(name, args), line)
    {
      var found := scripts.RunCommand(name, args);
      thrown := false;
      if !found {
        var index;
        index, thrown := WriteLine(line + NotValidSuffix());
      }
    }

    /** Typed text (not a filtered control character) goes to the end of the
        command text; the caret moves one place. */
    method TextInputHandler(unicode: string)
      requires |unicode| >= 1
      modifies this`caretPosition, this`commandString
      ensures Edit() == TypeText(old(Edit()), unicode)
    {
      var ch := unicode[0];
      if ch == 27 as char || ch == 13 as char || ch == 8 as char || ch == 9 as char {
        return;
      }
      caretPosition := caretPosition + 1;
      commandString := commandString + unicode;
    }

    /** The window's key handler: one step of `KeyStep`. */
    method WindowOnKeyPressed(key: Key, host: Host)
      requires Valid()
      modifies this`historyLine, this`caretPosition, this`commandHistory, this`commandString
      modifies this`consoleLines, this`isAlive, this`fontColor, this`fontSize, this`faulted
      modifies scripts`scriptCommands, scripts`keyOrder, scripts`instances, scripts`loaded, scripts`runs
      ensures Valid()
      ensures World() == KeyStep(old(World()), key, commandHandler, handlerCommands, host)
    {
      match key
      case Return =>
        OnReturn(host);
      case Tab =>
        OnTab(host);
      case BackSpace =>
        OnBackSpace();
      case Down =>
        OnDown();
      case Up =>
        OnUp();
      case Left =>
        OnLeft();
      case Right =>
        OnRight();
      case OtherKey =>
    }

    /** BackSpace: the character before the caret is removed; with the
        caret past the end of the text, `String.Remove` throws. */
    method OnBackSpace()
      modifies this`commandString, this`caretPosition, this`faulted
      ensures BackspaceDefined(old(Edit())) ==> Edit() == Backspace(old(Edit())) && faulted == old(faulted)
      ensures !BackspaceDefined(old(Edit())) ==> Edit() == old(Edit()) && faulted
    {
      if |commandString| > 0 && CaretPosition() > 0 {
        if CaretPosition() > |commandString| {
          faulted := true;
          return;
        }
        commandString := commandString[..CaretPosition() - 1] + commandString[CaretPosition()..];
        caretPosition := caretPosition - 1;
      }
    }

    /** Down: one entry forward in the history, or an empty line. */
    method OnDown()
      requires 0 <= historyLine <= |commandHistory|
      modifies this`historyLine, this`commandString, this`caretPosition
      ensures Edit() == HistoryDown(old(Edit()), commandHistory)
    {
      if historyLine > 1 {
        historyLine := historyLine - 1;
        commandString := commandHistory[|commandHistory| - historyLine];
      } else {
        commandString := [];
      }
      caretPosition := |preCommand| + |commandString|;
    }

    /** Up: one entry further back in the history, while there is one. */
    method OnUp()
      requires 0 <= historyLine <= |commandHistory|
      modifies this`historyLine, this`commandString, this`caretPosition
      ensures Edit() == HistoryUp(old(Edit()), commandHistory)
    {
      if historyLine < |commandHistory| {
        historyLine := historyLine + 1;
        commandString := commandHistory[|commandHistory| - historyLine];
      }
      caretPosition := |preCommand| + |commandString|;
    }

    method OnLeft()
      modifies this`caretPosition
      ensures Edit() == MoveLeft(old(Edit()))
    {
      if CaretPosition() > 0 {
        caretPosition := caretPosition - 1;
      }
    }

    method OnRight()
      modifies this`caretPosition
      ensures Edit() == MoveRight(old(Edit()))
    {
      if CaretPosition() < |commandString| {
        caretPosition := caretPosition + 1;
      }
    }
  }

  /** The reply to a command nobody knows, after the command text. */
  function NotValidSuffix(): string {
    " is not a valid command"
  }

  /** Once a handler has thrown, the later ones change nothing. */
  lemma {:induction false} DispatchKeepsThrow(s: Shell, hs: seq<Handler>, i: int, command: string,
                                              args: Option<seq<string>>, host: Host)
    requires 1 <= i <= |hs|
    requires Dispatch(s, hs[..i], command, args, host).threw
    ensures Dispatch(s, hs, command, args, host) == Dispatch(s, hs[..i], command, args, host)
    decreases |hs|
  {
    if i < |hs| {
      assert Dispatch(s, hs, command, args, host) == DispatchLast(s, hs, command, args, host);
      assert hs[..|hs| - 1][..i] == hs[..i];
      DispatchKeepsThrow(s, hs[..|hs| - 1], i, command, args, host);
    } else {
      assert hs[..i] == hs;
    }
  }

  class Program {
    static const commands: seq<string> := ["exit", "quit", "help", "load-script", "clear", "font"]

    /** The built-in commands, applied to `console`. */
    static method HandleCommand(console: Console, host: Host, command: string, args: Option<seq<string>>)
      returns (r: HandlerResult)
      requires console.Valid()
      modifies console`consoleLines, console`isAlive, console`fontColor, console`fontSize
      modifies console.scripts`scriptCommands, console.scripts`keyOrder
      modifies console.scripts`instances, console.scripts`loaded
      ensures console.Valid()
      ensures var rep := Respond(command, args, host, old(console.scripts.keyOrder), old(console.fontSize));
        (console.ShellState(), r) == HandlerResultOf(old(console.ShellState()), rep, host)
    {
      ghost var s0 := console.ShellState();
      if command == "exit" || command == "quit" {
        console.Shutdown();
        assert Respond(command, args, host, old(console.scripts.keyOrder), old(console.fontSize)) == Reply(true, Stop, []);
        assert s0.lines + [] == s0.lines;
        assert Effect(s0, Reply(true, Stop, [])) == s0.(alive := false);
        assert console.ShellState() == s0.(alive := false);
        return Handled(true);
      }
      if command == "clear" {
        console.Clear();
        assert Respond(command, args, host, old(console.scripts.keyOrder), old(console.fontSize)) == Reply(true, ClearLines, []);
        assert Effect(s0, Reply(true, ClearLines, [])) == s0.(lines := []);
        return Handled(true);
      }
      if command == "load-script" {
        r := LoadScript(console, host, args);
        return;
      }
      if command == "help" {
        r := Help(console, host);
        return;
      }
      if command == "font" {
        r := Font(console, host, args);
        return;
      }
      assert console.consoleLines + [] == console.consoleLines;
      return Handled(false);
    }

    /** The `load-script` case. */
    static method LoadScript(console: Console, host: Host, args: Option<seq<string>>)
      returns (r: HandlerResult)
      requires console.Valid()
      modifies console`consoleLines
      modifies console.scripts`scriptCommands, console.scripts`keyOrder
      modifies console.scripts`instances, console.scripts`loaded
      ensures console.Valid()
      ensures (console.ShellState(), r) == HandlerResultOf(old(console.ShellState()), LoadScriptReply(args, host), host)
    {
      if args.None? || |args.value| == 0 {
        // args[0] on a missing argument array throws
        assert console.consoleLines + [] == console.consoleLines;
        return Threw;
      }
      var scriptName := args.value[0];
      var scriptPath := FindScript(scriptName, host);
      if scriptPath.None? {
        var index := console.WriteFormatted(scriptName + NotFoundSuffix);
        return Handled(true);
      }
      var thrown := LoadAndReport(console, host.toolchain, scriptName, scriptPath.value);
      return if thrown then Threw else Handled(true);
    }

    /** Where `load-script` looks for the script: as named, then under the
        scripts directory. */
    static method FindScript(name: string, host: Host) returns (path: Option<string>)
      ensures path == ScriptPath(name, host)
    {
      if host.fileExists(name) {
        return Some(name);
      }
      if host.fileExists(ScriptsDir + name) {
        return Some(ScriptsDir + name);
      }
      return None;
    }

    /** Loads the script found at `path`, then writes how it went; an
        exception from the loader or from writing its error escapes. */
    static method LoadAndReport(console: Console, tc: Toolchain, name: string, path: string)
      returns (thrown: bool)
      requires console.Valid()
      modifies console`consoleLines
      modifies console.scripts`scriptCommands, console.scripts`keyOrder
      modifies console.scripts`instances, console.scripts`loaded
      ensures console.Valid()
      ensures console.ShellState() == Effect(old(console.ShellState()), LoadedReply(name, path, tc))
      ensures thrown <==> LoadedReply(name, path, tc).Fault?
    {
      ghost var s0 := console.ShellState();
      ghost var v := LoadVerdict(path, tc);
      VerdictEffect(s0, name, v);
      var ok, error, raised := console.scripts.Load(path, tc);
      if raised {
        return true;
      }
      var index;
      if ok {
        index := console.WriteFormatted(name + LoadedSuffix);
        thrown := false;
      } else {
        index, thrown := console.WriteLine(error);
      }
    }

    /** The `help` case: the names are sorted, then joined by a loop that
        puts ", " before each and drops the first two characters. */
    static method Help(console: Console, host: Host) returns (r: HandlerResult)
      requires console.Valid()
      modifies console`consoleLines
      ensures (console.ShellState(), r) ==
        HandlerResultOf(old(console.ShellState()), HelpReply(console.scripts.keyOrder, host), host)
    {
      ghost var s0 := console.ShellState();
      WriteHelpHeader(console);
      var line := HelpListing(console.scripts, host.collation);
      var index, thrown := console.WriteLine(line);
      HelpEffect(s0, console.scripts.keyOrder, host, line);
      return if thrown then Threw else Handled(true);
    }

    /** Writes the header line of `help`. */
    static method WriteHelpHeader(console: Console)
      modifies console`consoleLines
      ensures console.consoleLines == old(console.consoleLines) + HelpHeaderLines()
    {
      HeaderLine();
      var index, thrown := console.WriteLine(HelpHeader());
    }

    /** The listing line of `help`: the registered names, if any, and the
        built-in ones. */
    static method HelpListing(scripts: ScriptCompiler, le: (string, string) -> bool) returns (line: string)
      requires scripts.Valid()
      ensures line == HelpLine(scripts.keyOrder, le)
    {
      var names: seq<string>;
      var has := scripts.HasCommands();
      if has {
        var keys := scripts.GetCommands();
        names := keys.value + commands;
      } else {
        names := commands;
      }
      assert names == scripts.keyOrder + commands;
      line := SortedList(names, le);
    }

    /** The help listing: the names sorted, each preceded by ", ", and the
        first separator dropped. */
    static method SortedList(names: seq<string>, le: (string, string) -> bool) returns (line: string)
      requires |names| >= 1
      ensures line == Join(Ordering.SortBy(names, le), ", ")
    {
      var sorted := Ordering.SortBy(names, le);
      var text := PrefixEach(sorted);
      PrefixedJoin(sorted);
      line := text[2..];
    }

    /** The help loop: each name preceded by ", ". */
    static method PrefixEach(names: seq<string>) returns (text: string)
      ensures text == Prefixed(names)
    {
      text := [];
      for i := 0 to |names|
        invariant text == Prefixed(names[..i])
      {
        assert names[..i + 1][..i] == names[..i];
        text := text + ", " + names[i];
      }
      assert names[..|names|] == names;
    }

    /** The `font` case. */
    static method Font(console: Console, host: Host, args: Option<seq<string>>) returns (r: HandlerResult)
      modifies console`consoleLines, console`fontColor, console`fontSize
      ensures (console.ShellState(), r) ==
        HandlerResultOf(old(console.ShellState()), FontReply(args, old(console.fontSize)), host)
    {
      ghost var s0 := console.ShellState();
      if args.None? {
        var message := FontSizePrefix() + NatToString(console.fontSize as nat);
        var index := console.WriteFormatted(message);
        return Handled(true);
      }
      var a := args.value;
      if |a| == 0 {
        assert s0.lines + [] == s0.lines;
        return Threw;
      }
      if a[0] == ColorWord() {
        r := FontColor(console, host, a);
        return;
      }
      if a[0] == SizeWord() {
        r := FontSize(console, host, a);
        return;
      }
      assert s0.(lines := s0.lines + []) == s0;
      return Handled(true);
    }

    static method FontColor(console: Console, host: Host, a: seq<string>) returns (r: HandlerResult)
      modifies console`consoleLines, console`fontColor
      ensures (console.ShellState(), r) == HandlerResultOf(old(console.ShellState()), FontColorReply(a), host)
    {
      ghost var s0 := console.ShellState();
      if |a| < 4 {
        WriteColorUsage(console);
        return Handled(true);
      }
      var c := ParseColor(a[1], a[2], a[3]);
      if c.Some? {
        console.fontColor := c.value;
        assert s0.lines + [] == s0.lines;
      } else {
        WriteColorUsage(console);
      }
      return Handled(true);
    }

    /** Writes the `font color` usage text: two lines. */
    static method WriteColorUsage(console: Console)
      modifies console`consoleLines
      ensures console.consoleLines == old(console.consoleLines) + ColorUsageLines()
    {
      UsageLines();
      var index, thrown := console.WriteLine(ColorUsage());
    }

    /** Writes the `font size` usage text: two lines. */
    static method WriteSizeUsage(console: Console)
      modifies console`consoleLines
      ensures console.consoleLines == old(console.consoleLines) + SizeUsageLines()
    {
      UsageLines();
      var index, thrown := console.WriteLine(SizeUsage());
    }

    static method FontSize(console: Console, host: Host, a: seq<string>) returns (r: HandlerResult)
      modifies console`consoleLines, console`fontSize
      ensures (console.ShellState(), r) == HandlerResultOf(old(console.ShellState()), FontSizeReply(a), host)
    {
      ghost var s0 := console.ShellState();
      if |a| < 2 {
        // the usage text, then once more from the parse of the missing
        // argument, which then throws
        WriteSizeUsage(console);
        WriteSizeUsage(console);
        assert console.consoleLines == s0.lines + (SizeUsageLines() + SizeUsageLines());
        return Handled(true);
      }
      var size := ParseUnsigned(a[1], MaxUInt32);
      if size.Some? {
        console.fontSize := size.value as uint32;
        assert s0.lines + [] == s0.lines;
      } else {
        WriteSizeUsage(console);
      }
      return Handled(true);
    }
  }

  /** The state and the answer a reply gives, as `HandleCommand` returns them. */
  function HandlerResultOf(s: Shell, rep: Reply, host: Host): (Shell, HandlerResult) {
    (Effect(s, rep), if rep.Fault? then Threw else Handled(rep.claimed))
  }
}
