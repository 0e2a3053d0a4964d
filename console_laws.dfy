/** What the console promises over whole interactions: what a key press
    keeps and changes, how the handlers' answers combine on Return, what
    Tab does to the line, and what the built-in commands guarantee. Each
    lemma is about the value-level behaviour (`KeyStep`, `Dispatch`,
    `Respond`) that the console's methods are proved to follow. */
module ConsoleLaws {
  import opened Text
  import opened Editing
  import opened Scripting
  import opened HackerConsole
  import Ordering

  // ---- key presses ----

  /** Every key press keeps the caret within the command text and the
      history cursor within the history. */
  lemma KeyStepKeepsRange(w: Session, key: Key, handlers: seq<Handler>, handlerCommands: seq<string>,
                          host: Host)
    requires InRange(w.edit, w.history)
    ensures var w' := KeyStep(w, key, handlers, handlerCommands, host);
      InRange(w'.edit, w'.history)
  {
  }

  /** Text input keeps the caret within the command text as well. */
  lemma TypeTextKeepsRange(e: EditState, history: seq<string>, unicode: string)
    requires |unicode| >= 1 && InRange(e, history)
    ensures InRange(TypeText(e, unicode), history)
  {
  }

  /** Only Return touches the history, the registry and the script runs.
      Tab may add one line to the scrollback and leaves the rest of the
      shell alone; the other keys change the edit line only. A Backspace or
      a Tab that throws marks the console faulted and leaves the edit line
      as it was. */
  lemma KeyStepFrame(w: Session, key: Key, handlers: seq<Handler>, handlerCommands: seq<string>,
                     host: Host)
    requires CursorInRange(w.edit, w.history) && key != Return
    ensures var w' := KeyStep(w, key, handlers, handlerCommands, host);
      && w'.history == w.history && w'.runs == w.runs
      && w'.shell.(lines := w.shell.lines) == w.shell
      && (key != Tab ==> w'.shell == w.shell)
      && |w.shell.lines| <= |w'.shell.lines| <= |w.shell.lines| + 1
      && w'.shell.lines[..|w.shell.lines|] == w.shell.lines
      && (key != BackSpace && key != Tab ==> w'.faulted == w.faulted)
      && (w'.faulted != w.faulted ==> (key == BackSpace || key == Tab) && w'.edit == w.edit)
  {
  }

  // ---- Return ----

  /** Return: the line goes into the history and the caret and history
      cursor go back to 0. The registry runs the command exactly when no
      handler threw or claimed it and the name is registered; otherwise,
      when no handler claimed it, the line is reported as not a valid
      command, and that report throws when `Format` refuses the line. The
      line is cleared unless a handler or the report threw, which marks the
      console faulted; nothing but the report is written after the
      handlers. */
  lemma ReturnStepSpec(w: Session, handlers: seq<Handler>, host: Host)
    ensures var c := Tokenize(w.edit.buffer);
      var o := Dispatch(w.shell, handlers, c.name, c.args, host);
      var w' := ReturnStep(w, handlers, host);
      var runs := !o.threw && !o.claimed && c.name in o.shell.registry.commands;
      var reported := !o.threw && !o.claimed && c.name !in o.shell.registry.commands;
      var report := WriteLines(w.edit.buffer + NotValidSuffix());
      var threw := o.threw || (reported && report.None?);
      && w'.history == w.history + [w.edit.buffer]
      && w'.edit.caret == 0 && w'.edit.cursor == 0
      && w'.edit.buffer == (if threw then w.edit.buffer else [])
      && (!threw ==> (w'.edit, w'.history) == Submit(w.edit, w.history))
      && w'.faulted == (w.faulted || threw)
      && w'.shell.(lines := o.shell.lines) == o.shell
      && (runs ==> w'.runs == w.runs + [Run(o.shell.registry.commands[c.name], c.args)])
      && (!runs ==> w'.runs == w.runs)
      && (reported && report.Some? ==> w'.shell.lines == o.shell.lines + report.value)
      && (!(reported && report.Some?) ==> w'.shell.lines == o.shell.lines)
  {
  }

  /** A typed line has no line break, so when it has no brace either the
      report is one line: the line and " is not a valid command". */
  lemma NotValidLine(line: string)
    requires '\n' !in line && NoBraces(line)
    ensures WriteLines(line + NotValidSuffix()) == Some([line + NotValidSuffix()])
  {
    var m := line + NotValidSuffix();
    assert '\n' !in m by {
      forall i | 0 <= i < |m| ensures m[i] != '\n' {
        if i < |line| { assert m[i] == line[i] && line[i] in line; } else { assert m[i] == NotValidSuffix()[i - |line|]; }
      }
    }
    NotValidSuffixPlain();
    NoBracesJoin(line, [], NotValidSuffix());
    assert line + [] + NotValidSuffix() == m;
    PlainLine(m);
  }

  /** A line with a single brace, such as `a{b`, cannot be reported: the
      report throws. */
  lemma NotValidBrace(before: string, brace: char, after: string)
    requires NoBraces(before) && IsBrace(brace) && NoBraces(after)
    ensures WriteLines(before + [brace] + after + NotValidSuffix()).None?
  {
    NotValidSuffixPlain();
    NoBracesJoin(after, [], NotValidSuffix());
    assert after + [] + NotValidSuffix() == after + NotValidSuffix();
    LoneBraceThrows(before, brace, after + NotValidSuffix());
    assert before + [brace] + (after + NotValidSuffix()) == before + [brace] + after + NotValidSuffix();
  }

  lemma NotValidSuffixPlain()
    ensures NoBraces(NotValidSuffix())
  {
  }

  // ---- Tab ----

  /** Tab: the caret goes to the end of the new text, and the text only
      grows. With exactly one candidate starting with the token after the
      last space, the token is replaced by that candidate and a space; with
      none or several the text stays as it was, and several are listed on
      one new "Available: " line. When a file search for `load-script`
      throws, or a listed match cannot be formatted, the key press stops
      there, the edit line is left as it was and the console is marked
      faulted; a failed search writes nothing. Nothing else changes. */
  lemma TabStepSpec(w: Session, handlerCommands: seq<string>, host: Host)
    ensures var t := TabSplit(w.edit.buffer);
      var found := Candidates(t.context, t.token, host, handlerCommands, w.shell.registry.order);
      var w' := TabStep(w, handlerCommands, host);
      && (found.None? <==>
            (t.context == "load-script" &&
             (host.scriptFiles(t.token + "*.cs").None? || host.scriptFiles(t.token + "*.dll").None?)))
      && (found.None? ==> w'.edit == w.edit && w'.faulted && w'.shell == w.shell)
      && StartsWith(w'.edit.buffer, w.edit.buffer)
      && w'.history == w.history && w'.runs == w.runs
    ensures var t := TabSplit(w.edit.buffer);
      var found := Candidates(t.context, t.token, host, handlerCommands, w.shell.registry.order);
      found.Some? ==>
        var ms := Matches(found.value, t.token);
        var l := AvailableListing(ms);
        var threw := |ms| > 1 && l.threw;
        var w' := TabStep(w, handlerCommands, host);
        && (threw ==> w'.edit == w.edit && w'.faulted)
        && (!threw ==> w'.edit.caret == |w'.edit.buffer| && w'.edit.cursor == w.edit.cursor && w'.faulted == w.faulted)
        && (|ms| == 1 ==> w'.edit.buffer == t.head + ms[0] + " ")
        && (|ms| != 1 ==> w'.edit.buffer == w.edit.buffer)
        && (|ms| > 1 ==> w'.shell == w.shell.(lines := w.shell.lines + [AvailablePrefix() + l.appended]))
        && (|ms| <= 1 ==> w'.shell == w.shell)
  {
    var t := TabSplit(w.edit.buffer);
    match Candidates(t.context, t.token, host, handlerCommands, w.shell.registry.order)
    case None =>
      assert StartsWith(w.edit.buffer, w.edit.buffer);
    case Some(cands) =>
      TabCompletes(w.edit.buffer, cands);
      assert w.shell.lines + [] == w.shell.lines;
  }

  /** Tab after "load-script " with no scripts directory: every search
      throws, so the edit line and the scrollback stay as they were and the
      console is marked faulted. */
  lemma TabWithoutScripts(w: Session, token: string, handlerCommands: seq<string>, host: Host)
    requires w.edit.buffer == "load-script " + token && ' ' !in token
    requires forall pattern :: host.scriptFiles(pattern).None?
    ensures var w' := TabStep(w, handlerCommands, host);
      w'.edit == w.edit && w'.faulted && w'.shell == w.shell
  {
    var t := TabSplit(w.edit.buffer);
    LoadScriptContext(token);
    assert host.scriptFiles(t.token + "*.cs").None?;
    assert Candidates(t.context, t.token, host, handlerCommands, w.shell.registry.order).None?;
  }

  /** The first word of "load-script " and a token is `load-script`. */
  lemma LoadScriptContext(token: string)
    requires ' ' !in token
    ensures TabSplit("load-script " + token).context == "load-script"
  {
    var b := "load-script " + token;
    var t := TabSplit(b);
    TabSplitSpec(b);
    var k := |t.context|;
    assert b[11] == ' ';
    if k != 11 {
      assert false;
    }
    assert b[..11] == "load-script";
  }

  /** The text Tab leaves for candidates `cands`. */
  lemma TabCompletes(buffer: string, cands: seq<string>)
    ensures var t := TabSplit(buffer);
      var ms := Matches(cands, t.token);
      var r := t.head + Complete(t.token, cands);
      && StartsWith(r, buffer)
      && (|ms| == 1 ==> r == t.head + ms[0] + " ")
      && (|ms| != 1 ==> r == buffer)
  {
    var t := TabSplit(buffer);
    var c := Complete(t.token, cands);
    assert t.head + t.token == buffer by { TabSplitSpec(buffer); }
    CompleteSpec(t.token, cands);
    PrefixExtends(t.head, t.token, c);
  }

  lemma PrefixExtends(h: string, token: string, c: string)
    requires StartsWith(c, token)
    ensures StartsWith(h + c, h + token)
  {
    assert (h + c)[..|h + token|] == h + c[..|token|];
  }

  // ---- the handlers ----

  /** Handlers added by extensions are called in order, however the earlier
      ones answered, until one throws: the shell is unchanged; the round
      throws exactly when some handler's answer is an exception, and
      otherwise the command is claimed exactly when some handler claims it. */
  lemma {:induction false} DispatchExtensions(s: Shell, hs: seq<Handler>, command: string,
                                              args: Option<seq<string>>, host: Host)
    requires forall i :: 0 <= i < |hs| ==> hs[i].ExtensionHandler?
    ensures var o := Dispatch(s, hs, command, args, host);
      && o.shell == s
      && (o.threw <==> exists i :: 0 <= i < |hs| && hs[i].answer(command, args).Threw?)
      && (!o.threw ==> (o.claimed <==> exists i :: 0 <= i < |hs| && hs[i].answer(command, args) == Handled(true)))
    decreases |hs|
  {
    if hs != [] {
      var n := |hs| - 1;
      var init := hs[..n];
      assert forall i :: 0 <= i < |init| ==> init[i] == hs[i];
      DispatchExtensions(s, init, command, args, host);
      assert Dispatch(s, hs, command, args, host) == DispatchLast(s, hs, command, args, host);
      var o := Dispatch(s, init, command, args, host);
      if !o.threw {
        var last := hs[n].answer(command, args);
        if last == Handled(true) {
          assert exists i :: 0 <= i < |hs| && hs[i].answer(command, args) == Handled(true);
        } else if last.Handled? {
          assert forall i :: 0 <= i < |hs| && hs[i].answer(command, args) == Handled(true) ==> i < n;
        }
      }
    }
  }

  /** When the round throws, the first handler whose answer is an exception
      ends it, and the command is claimed exactly when a handler before
      that one claims it. */
  lemma {:induction false} DispatchExtensionsThrow(s: Shell, hs: seq<Handler>, command: string,
                                                   args: Option<seq<string>>, host: Host)
    requires forall i :: 0 <= i < |hs| ==> hs[i].ExtensionHandler?
    requires Dispatch(s, hs, command, args, host).threw
    ensures exists k ::
      && 0 <= k < |hs| && hs[k].answer(command, args).Threw?
      && (forall i :: 0 <= i < k ==> !hs[i].answer(command, args).Threw?)
      && (Dispatch(s, hs, command, args, host).claimed <==>
            exists i :: 0 <= i < k && hs[i].answer(command, args) == Handled(true))
    decreases |hs|
  {
    var n := |hs| - 1;
    var init := hs[..n];
    assert forall i :: 0 <= i < |init| ==> init[i] == hs[i];
    assert Dispatch(s, hs, command, args, host) == DispatchLast(s, hs, command, args, host);
    var o := Dispatch(s, init, command, args, host);
    if o.threw {
      assert Dispatch(s, hs, command, args, host) == o;
      DispatchExtensionsThrow(s, init, command, args, host);
      var k :| 0 <= k < |init| && init[k].answer(command, args).Threw?
        && (forall i :: 0 <= i < k ==> !init[i].answer(command, args).Threw?)
        && (o.claimed <==> exists i :: 0 <= i < k && init[i].answer(command, args) == Handled(true));
      assert hs[k] == init[k];
      ThrowWitness(hs, k, command, args, o.claimed);
    } else {
      DispatchExtensions(s, init, command, args, host);
      assert hs[n].answer(command, args).Threw?;
      assert Dispatch(s, hs, command, args, host).claimed == o.claimed;
      ThrowWitness(hs, n, command, args, o.claimed);
    }
  }

  lemma ThrowWitness(hs: seq<Handler>, k: int, command: string, args: Option<seq<string>>, claimed: bool)
    requires forall i :: 0 <= i < |hs| ==> hs[i].ExtensionHandler?
    requires 0 <= k < |hs| && hs[k].answer(command, args).Threw?
    requires forall i :: 0 <= i < k ==> !hs[i].answer(command, args).Threw?
    requires claimed <==> exists i :: 0 <= i < k && hs[i].answer(command, args) == Handled(true)
    ensures exists j ::
      && 0 <= j < |hs| && hs[j].answer(command, args).Threw?
      && (forall i :: 0 <= i < j ==> !hs[i].answer(command, args).Threw?)
      && (claimed <==> exists i :: 0 <= i < j && hs[i].answer(command, args) == Handled(true))
  {
  }

  /** `HandleCommand` claims exactly the built-in names. It throws only
      for `load-script` without a name, or when the load throws or its error
      text cannot be formatted; for `help` when the listing cannot be
      formatted; and for `font` with an empty argument array. */
  lemma RespondClaims(command: string, args: Option<seq<string>>, host: Host, keys: seq<string>,
                      size: uint32)
    ensures var rep := Respond(command, args, host, keys, size);
      && (rep.Reply? ==> (rep.claimed <==> command in Program.commands))
      && (rep.Fault? ==> command == "load-script" || command == "help" || command == "font")
      && (command == "load-script" ==>
            (rep.Fault? <==>
               (|| args.None? || |args.value| == 0
                || match ScriptPath(args.value[0], host)
                   case None => false
                   case Some(path) => VerdictReply(args.value[0], LoadVerdict(path, host.toolchain)).Fault?)))
      && (command == "help" ==> (rep.Fault? <==> WriteLines(HelpLine(keys, host.collation)).None?))
      && (command == "font" ==> (rep.Fault? <==> args.Some? && |args.value| == 0))
  {
    var rep := Respond(command, args, host, keys, size);
    if command == "load-script" && args.Some? && |args.value| > 0 {
      match ScriptPath(args.value[0], host)
      case None =>
      case Some(path) =>
        assert rep == VerdictReply(args.value[0], LoadVerdict(path, host.toolchain));
    }
    if command == "font" && args.Some? && |args.value| > 0 {
      assert rep.Reply?;
    }
  }

  /** A command that `Tokenize` produced never makes `font` throw, and makes
      `load-script` throw when it has no argument. */
  lemma TokenizedFont(line: string, host: Host, keys: seq<string>, size: uint32)
    ensures var c := Tokenize(line);
      && (c.name == "font" ==> Respond(c.name, c.args, host, keys, size).Reply?)
      && (c.name == "load-script" && c.args.None? ==> Respond(c.name, c.args, host, keys, size).Fault?)
  {
    var c := Tokenize(line);
    RespondClaims(c.name, c.args, host, keys, size);
  }

  /** exit and quit only stop the console; clear only empties the
      scrollback. */
  lemma BuiltinStops(s: Shell, command: string, args: Option<seq<string>>, host: Host,
                     keys: seq<string>, size: uint32)
    ensures command == "exit" || command == "quit" ==>
      Effect(s, Respond(command, args, host, keys, size)) == s.(alive := false)
    ensures command == "clear" ==>
      Effect(s, Respond(command, args, host, keys, size)) == s.(lines := [])
  {
    assert s.lines + [] == s.lines;
  }

  // ---- load-script ----

  /** A script named but found neither as given nor under the scripts
      directory leaves the registry alone and reports the name as not
      found, on one line when the name has no line break. */
  lemma NotFoundReport(s: Shell, name: string, rest: seq<string>, host: Host)
    requires !host.fileExists(name) && !host.fileExists(ScriptsDir + name)
    ensures var s' := Effect(s, LoadScriptReply(Some([name] + rest), host));
      && s'.(lines := s.lines) == s
      && s'.lines == s.lines + LinesOf(name + NotFoundSuffix)
      && ('\n' !in name ==> s'.lines == s.lines + [name + NotFoundSuffix])
  {
    if '\n' !in name {
      var m := name + NotFoundSuffix;
      assert '\n' !in m by {
        forall i | 0 <= i < |m| ensures m[i] != '\n' {
          if i < |name| { assert m[i] == name[i] && name[i] in name; } else { assert m[i] == NotFoundSuffix[i - |name|]; }
        }
      }
      PlainLine(m);
    }
  }

  /** The verdict is registered: a load that fails leaves every name as it
      was, and one that succeeds registers the script and reports
      `<name> loaded successfully`. A rejection writes its message, or
      nothing when the message cannot be formatted; an exception writes
      nothing. */
  lemma VerdictReport(s: Shell, name: string, v: Verdict)
    ensures var s' := Effect(s, VerdictReply(name, v));
      && s'.(lines := s.lines, registry := s.registry) == s
      && s'.registry == Register(s.registry, v)
      && (!v.Accept? ==> s'.registry.commands == s.registry.commands)
      && (v.Accept? ==> v.t.commandName in s'.registry.commands && s'.lines == s.lines + LinesOf(name + LoadedSuffix))
      && (v.Reject? ==> s'.lines == s.lines + match WriteLines(v.message) case None => [] case Some(ls) => ls)
      && (v.Reject? && NoBraces(v.message) ==> s'.lines == s.lines + LinesOf(v.message))
      && (v.Raise? ==> s'.lines == s.lines)
  {
    RegisterSpec(s.registry, v);
    VerdictEffect(s, name, v);
    if v.Raise? || (v.Reject? && WriteLines(v.message).None?) {
      assert s.lines + [] == s.lines;
    }
  }

  /** A build whose diagnostic text holds a single brace, such as
      `} expected`, is rejected, and reporting the rejection throws. */
  lemma BraceInDiagnostics(s: Shell, name: string, fileName: string, tc: Toolchain,
                           before: string, brace: char, after: string)
    requires !EndsWith(fileName, ".dll") && AnyError(tc.build(fileName).diagnostics)
    requires DiagnosticsMessage(tc.build(fileName).diagnostics) == before + [brace] + after
    requires NoBraces(before) && IsBrace(brace) && NoBraces(after)
    ensures VerdictReply(name, LoadVerdict(fileName, tc)).Fault?
  {
    LoadVerdictErrors(fileName, tc);
    LoneBraceThrows(before, brace, after);
  }

  // ---- help ----

  /** The help line lists every registered and every built-in name, as
      many times as it occurs (duplicates are kept), in the host's order. */
  lemma HelpLineOrder(keys: seq<string>, le: (string, string) -> bool)
    requires Ordering.TotalPreorder(le)
    ensures var names := Ordering.SortBy(keys + Program.commands, le);
      && HelpLine(keys, le) == Join(names, ", ")
      && Ordering.SortedBy(names, le)
      && multiset(names) == multiset(keys) + multiset(Program.commands)
  {
    Ordering.SortBySorted(keys + Program.commands, le);
    Ordering.SortByPermutation(keys + Program.commands, le);
  }

  // ---- font ----

  /** `font color` with the decimal forms of three bytes sets exactly that
      colour and writes nothing. */
  lemma FontColorPrinted(word: string, r: byte, g: byte, b: byte)
    ensures FontColorReply([word, NatToString(r as nat), NatToString(g as nat), NatToString(b as nat)]) ==
      Reply(true, SetColor(Color(r, g, b)), [])
  {
    ParsePrinted(r as nat, MaxByte);
    ParsePrinted(g as nat, MaxByte);
    ParsePrinted(b as nat, MaxByte);
  }

  /** `font color` with too few arguments, or with one that is not a byte,
      writes the two usage lines and leaves the colour and all else alone. */
  lemma FontColorUsage(s: Shell, a: seq<string>)
    requires |a| < 4 || exists i :: 1 <= i < 4 && ParseUnsigned(a[i], MaxByte).None?
    ensures Effect(s, FontColorReply(a)) == s.(lines := s.lines + ColorUsageLines())
  {
    if |a| >= 4 {
      var i :| 1 <= i < 4 && ParseUnsigned(a[i], MaxByte).None?;
      assert ParseColor(a[1], a[2], a[3]).None?;
    }
  }

  /** Otherwise `font color` sets the colour to the three bytes and writes
      nothing; each component is at most 255. */
  lemma FontColorSet(s: Shell, a: seq<string>)
    requires |a| >= 4 && forall i :: 1 <= i < 4 ==> ParseUnsigned(a[i], MaxByte).Some?
    ensures var c := Effect(s, FontColorReply(a)).color;
      && Effect(s, FontColorReply(a)) == s.(color := c)
      && Some(c.r as nat) == ParseUnsigned(a[1], MaxByte)
      && Some(c.g as nat) == ParseUnsigned(a[2], MaxByte)
      && Some(c.b as nat) == ParseUnsigned(a[3], MaxByte)
  {
    assert ParseUnsigned(a[1], MaxByte).Some? && ParseUnsigned(a[2], MaxByte).Some? && ParseUnsigned(a[3], MaxByte).Some?;
    ParseUnsignedSpec(a[1], MaxByte);
    ParseUnsignedSpec(a[2], MaxByte);
    ParseUnsignedSpec(a[3], MaxByte);
    assert s.lines + [] == s.lines;
  }

  /** `font size` with the decimal form of a 32-bit number sets exactly that
      size and writes nothing. */
  lemma FontSizePrinted(word: string, n: uint32)
    ensures FontSizeReply([word, NatToString(n as nat)]) == Reply(true, SetSize(n), [])
  {
    ParsePrinted(n as nat, MaxUInt32);
  }

  /** `font size` without a size writes the usage text twice, with a size
      that does not parse once; neither changes the size or anything else. */
  lemma FontSizeUsage(s: Shell, a: seq<string>)
    requires |a| < 2 || ParseUnsigned(a[1], MaxUInt32).None?
    ensures Effect(s, FontSizeReply(a)) ==
      s.(lines := s.lines + (if |a| < 2 then SizeUsageLines() + SizeUsageLines() else SizeUsageLines()))
  {
  }

  /** `font` alone writes one line, the prefix and the size in decimal,
      which reads back as the size. */
  lemma FontReport(s: Shell, size: uint32)
    ensures var line := FontSizePrefix() + NatToString(size as nat);
      && Effect(s, FontReply(None, size)) == s.(lines := s.lines + [line])
      && ParseUnsigned(line[|FontSizePrefix()|..], MaxUInt32) == Some(size as nat)
  {
    var digits := NatToString(size as nat);
    var line := FontSizePrefix() + digits;
    NatToStringSpec(size as nat);
    assert '\n' !in line by {
      forall i | 0 <= i < |line| ensures line[i] != '\n' {
        if i >= |FontSizePrefix()| { assert line[i] == digits[i - |FontSizePrefix()|]; }
      }
    }
    PlainLine(line);
    assert line[|FontSizePrefix()|..] == digits;
    ParsePrinted(size as nat, MaxUInt32);
  }

  /** A `font` subcommand other than `color` and `size` is claimed and has
      no effect. */
  lemma FontOtherIgnored(s: Shell, a: seq<string>, size: uint32)
    requires |a| >= 1 && a[0] != ColorWord() && a[0] != SizeWord()
    ensures FontReply(Some(a), size) == Reply(true, NoAction, [])
    ensures Effect(s, FontReply(Some(a), size)) == s
  {
    assert s.lines + [] == s.lines;
  }
}
