/** The extension loader and registry (`HackerConsole.Scripting.ScriptCompiler`).
    Compiling C# and reflecting over an assembly are collaborators the model
    cannot see: the compiler is a function from a file name to its
    diagnostics and the types it produced, and reflection is a sequence of
    `TypeDesc` values, one per type. What is modelled is the decision logic on top of them
    and the registry the decisions update. */
module Scripting {
  import opened Text

  /** One entry of a compiler error collection: whether it is a warning, and
      the text its `ToString()` gives. */
  datatype Diagnostic = Diagnostic(isWarning: bool, text: string)

  /** An interface a type implements, in the order reflection lists them. */
  datatype Interface = CommandScriptInterface | OtherInterface(name: string)

  /** What invoking a type's parameterless constructor does: it yields an
      `ICommandScript`, or an object that is not one (`null` after `as`), or
      it throws. */
  datatype Construction = Builds | YieldsNull | CtorThrows

  /** What reflection reports about one type of an assembly: its interfaces,
      whether it has a public parameterless constructor, what invoking that
      constructor does, whether the instance's `Load` throws, the name the
      instance gives for the command it handles, and whether asking for
      that name throws (or gives `null`, which the dictionary refuses). */
  datatype TypeDesc = TypeDesc(
    interfaces: seq<Interface>,
    publicNullaryCtor: bool,
    construct: Construction,
    loadThrows: bool,
    commandName: string,
    nameThrows: bool)

  /** An assembly as `GetTypes` sees it: its types, or an exception. */
  datatype Assembly = Types(types: seq<TypeDesc>) | Unreadable

  /** What compiling a source file gives: its diagnostics and, when it built,
      the assembly. */
  datatype BuildResult = BuildResult(diagnostics: seq<Diagnostic>, assembly: Assembly)

  /** The two outside services `Load` uses: loading a `.dll` (`None` when the
      load throws) and compiling a source file. */
  datatype Toolchain = Toolchain(
    loadFrom: string -> Option<Assembly>,
    build: string -> BuildResult)

  /** An extension instance: `serial` tells instances apart, `name` is its
      command name. */
  datatype Script = Script(serial: nat, name: string)

  /** One `RunScript` call on a registered extension. */
  datatype Run = Run(script: Script, args: Option<seq<string>>)

  /** The outcome of inspecting an assembly: the type that gets registered;
      or the error message; or an exception. `ranLoad` says whether an
      instance was constructed and its `Load` called before a rejection or
      an exception. */
  datatype Verdict = Accept(t: TypeDesc) | Reject(message: string, ranLoad: bool) | Raise(ranLoad: bool)

  const NotCommandScript := "Script Invalid\nScript does not inherit ICommandScript"
  const NoValidConstructor := "Script Invalid\nScript does not have valid Contructor"
  const NotConstructed := "Script Invalid\nCould not invoke constructor"
  const DllLoadFailed := "Failed to load .dll"
  const OnlyCs := "this only supports .cs extension"
  const ValidHeader := "Script Valid\nWarnings:\n"
  const InvalidHeader := "Script Invalid\nErrors:\n"
  const ValidMessage := "Script Valid"

  /** The verdict on a type that implements at least one interface: only its
      first interface is looked at. */
  function Judge(t: TypeDesc): (v: Verdict)
    requires |t.interfaces| > 0
    ensures v.Accept? <==>
      && t.interfaces[0] == CommandScriptInterface && t.publicNullaryCtor && t.construct == Builds
      && !t.loadThrows && !t.nameThrows
    ensures v.Raise? <==>
      && t.interfaces[0] == CommandScriptInterface && t.publicNullaryCtor
      && (t.construct == CtorThrows || (t.construct == Builds && (t.loadThrows || t.nameThrows)))
    ensures v.Raise? ==> (v.ranLoad <==> t.construct == Builds)
    ensures v.Accept? ==> v.t == t
    ensures v.Reject? ==> !v.ranLoad && v.message in {NotCommandScript, NoValidConstructor, NotConstructed}
  {
    if t.interfaces[0] != CommandScriptInterface then Reject(NotCommandScript, false)
    else if !t.publicNullaryCtor then Reject(NoValidConstructor, false)
    else
      match t.construct
      case CtorThrows => Raise(false)
      case YieldsNull => Reject(NotConstructed, false)
      case Builds => if t.loadThrows || t.nameThrows then Raise(true) else Accept(t)
  }

  /** The verdict on a whole assembly: types without interfaces are passed
      over and the first type with one decides; no such type is a silent
      failure. */
  function Decide(types: seq<TypeDesc>): Verdict {
    if types == [] then Reject("", false)
    else if types[0].interfaces == [] then Decide(types[1..])
    else Judge(types[0])
  }

  /** The first type with an interface decides, whatever follows it. */
  lemma {:induction false} DecideByFirst(types: seq<TypeDesc>, i: int)
    requires 0 <= i < |types| && |types[i].interfaces| > 0
    requires forall j :: 0 <= j < i ==> types[j].interfaces == []
    ensures Decide(types) == Judge(types[i])
  {
    if i > 0 {
      DecideByFirst(types[1..], i - 1);
    }
  }

  /** With no type implementing any interface, the verdict is a rejection
      with an empty message. */
  lemma {:induction false} DecideNone(types: seq<TypeDesc>)
    requires forall j :: 0 <= j < |types| ==> types[j].interfaces == []
    ensures Decide(types) == Reject("", false)
  {
    if types != [] {
      DecideNone(types[1..]);
    }
  }

  /** An accepted type implements `ICommandScript` as its first interface and
      can be constructed; a later well-formed type never rescues an earlier
      bad one. */
  lemma {:induction false} DecideAccepts(types: seq<TypeDesc>)
    ensures Decide(types).Accept? <==>
      exists i :: 0 <= i < |types| && |types[i].interfaces| > 0
        && (forall j :: 0 <= j < i ==> types[j].interfaces == [])
        && Judge(types[i]).Accept?
    ensures Decide(types).Accept? ==> Decide(types).t in types
  {
    if types != [] {
      DecideAccepts(types[1..]);
      if types[0].interfaces == [] {
        if Decide(types).Accept? {
          var i :| 1 <= i + 1 <= |types[1..]| && |types[1..][i].interfaces| > 0
            && (forall j :: 0 <= j < i ==> types[1..][j].interfaces == [])
            && Judge(types[1..][i]).Accept?;
          assert types[i + 1] == types[1..][i];
          assert forall j :: 0 <= j < i + 1 ==> types[j].interfaces == [] by {
            forall j | 0 <= j < i + 1 ensures types[j].interfaces == [] {
              if j > 0 { assert types[j] == types[1..][j - 1]; }
            }
          }
        } else {
          forall i | 0 <= i < |types| && |types[i].interfaces| > 0
            && (forall j :: 0 <= j < i ==> types[j].interfaces == [])
            ensures !Judge(types[i]).Accept?
          {
            assert i > 0;
            assert types[1..][i - 1] == types[i];
            assert forall j :: 0 <= j < i - 1 ==> types[1..][j].interfaces == [] by {
              forall j | 0 <= j < i - 1 ensures types[1..][j].interfaces == [] {
                assert types[1..][j] == types[j + 1];
              }
            }
          }
        }
      }
    }
  }

  predicate AnyError(ds: seq<Diagnostic>) {
    exists i :: 0 <= i < |ds| && !ds[i].isWarning
  }

  predicate AnyWarning(ds: seq<Diagnostic>) {
    exists i :: 0 <= i < |ds| && ds[i].isWarning
  }

  /** Every diagnostic's text, each followed by a line break, in order. */
  function Listing(ds: seq<Diagnostic>): string {
    if ds == [] then [] else Listing(ds[..|ds| - 1]) + ds[|ds| - 1].text + "\n"
  }

  function DiagnosticTexts(ds: seq<Diagnostic>): (r: seq<string>)
    ensures |r| == |ds|
    ensures forall i :: 0 <= i < |ds| ==> r[i] == ds[i].text
  {
    seq(|ds|, i requires 0 <= i < |ds| => ds[i].text)
  }

  /** The report on a build: a header saying whether the script is valid and
      whether it has warnings or errors, then every diagnostic; a build with
      no diagnostics reads just "Script Valid". */
  function DiagnosticsMessage(ds: seq<Diagnostic>): (m: string)
    ensures ds == [] ==> m == ValidMessage
    ensures AnyError(ds) ==> m == InvalidHeader + Listing(ds)
    ensures ds != [] && !AnyError(ds) ==> m == ValidHeader + Listing(ds)
  {
    EmptyOrKind(ds);
    if AnyWarning(ds) && !AnyError(ds) then ValidHeader + Listing(ds)
    else if AnyError(ds) then InvalidHeader + Listing(ds)
    else ValidMessage
  }

  /** Every diagnostic is a warning or an error. */
  lemma EmptyOrKind(ds: seq<Diagnostic>)
    ensures ds == [] || AnyWarning(ds) || AnyError(ds)
  {
    if ds != [] {
      assert ds[0].isWarning || !ds[0].isWarning;
    }
  }

  /** When no diagnostic text holds a line break, the listing's lines are the
      diagnostics, one each, followed by the empty line after the last break. */
  lemma {:induction false} ListingLines(ds: seq<Diagnostic>)
    requires forall i :: 0 <= i < |ds| ==> '\n' !in ds[i].text
    ensures Split(Listing(ds), '\n') == DiagnosticTexts(ds) + [[]]
  {
    ListingIsJoin(ds);
    var ps := DiagnosticTexts(ds) + [[]];
    assert forall i :: 0 <= i < |ps| ==> '\n' !in ps[i] by {
      forall i | 0 <= i < |ps| ensures '\n' !in ps[i] {
        if i < |ds| { assert ps[i] == ds[i].text; }
      }
    }
    SplitJoin(ps, '\n');
  }

  lemma {:induction false} ListingIsJoin(ds: seq<Diagnostic>)
    ensures Listing(ds) == Join(DiagnosticTexts(ds) + [[]], "\n")
  {
    if ds == [] {
      assert DiagnosticTexts(ds) + [[]] == [[]];
    } else {
      var init := ds[..|ds| - 1];
      ListingIsJoin(init);
      assert DiagnosticTexts(ds) == DiagnosticTexts(init) + [ds[|ds| - 1].text];
      JoinSnoc(DiagnosticTexts(init), ds[|ds| - 1].text, "\n");
    }
  }

  /** The verdict on an assembly: `GetTypes` throwing is an exception. */
  function Process(a: Assembly): Verdict {
    match a
    case Unreadable => Raise(false)
    case Types(types) => Decide(types)
  }

  /** The `.dll` branch of `Load` catches every exception and reports a
      failed load; what ran before the exception stays done. */
  function Caught(v: Verdict): (r: Verdict)
    ensures !r.Raise?
  {
    if v.Raise? then Reject(DllLoadFailed, v.ranLoad) else v
  }

  /** The whole outcome of `Load`, from the file's extension and what the
      toolchain gives for it. */
  function LoadVerdict(fileName: string, tc: Toolchain): Verdict {
    if EndsWith(fileName, ".dll") then
      match tc.loadFrom(fileName)
      case None => Reject(DllLoadFailed, false)
      case Some(a) => Caught(Process(a))
    else
      var b := tc.build(fileName);
      if AnyError(b.diagnostics) then Reject(DiagnosticsMessage(b.diagnostics), false)
      else Process(b.assembly)
  }

  /** The error text `Load` and `ProcessScript` hand back when they return. */
  function ErrorText(v: Verdict): string {
    if v.Reject? then v.message else ""
  }

  /** A build with errors is never loaded, and its report starts with the
      invalid header and lists every diagnostic; a `.dll` that fails to load,
      or whose inspection throws, is reported as a failed load and never
      lets the exception out; only a built source lets one out; an accepted
      type is one of the assembly's. */
  lemma LoadVerdictErrors(fileName: string, tc: Toolchain)
    ensures !EndsWith(fileName, ".dll") && AnyError(tc.build(fileName).diagnostics) ==>
      LoadVerdict(fileName, tc) == Reject(InvalidHeader + Listing(tc.build(fileName).diagnostics), false)
    ensures EndsWith(fileName, ".dll") && tc.loadFrom(fileName).None? ==>
      LoadVerdict(fileName, tc) == Reject(DllLoadFailed, false)
    ensures EndsWith(fileName, ".dll") && tc.loadFrom(fileName).Some? && Process(tc.loadFrom(fileName).value).Raise? ==>
      LoadVerdict(fileName, tc) == Reject(DllLoadFailed, Process(tc.loadFrom(fileName).value).ranLoad)
    ensures LoadVerdict(fileName, tc).Raise? <==>
      !EndsWith(fileName, ".dll") && !AnyError(tc.build(fileName).diagnostics)
        && Process(tc.build(fileName).assembly).Raise?
    ensures LoadVerdict(fileName, tc).Accept? ==>
      if EndsWith(fileName, ".dll") then
        tc.loadFrom(fileName).Some? && tc.loadFrom(fileName).value.Types?
          && LoadVerdict(fileName, tc).t in tc.loadFrom(fileName).value.types
      else
        !AnyError(tc.build(fileName).diagnostics) && tc.build(fileName).assembly.Types?
          && LoadVerdict(fileName, tc).t in tc.build(fileName).assembly.types
  {
    if EndsWith(fileName, ".dll") {
      if tc.loadFrom(fileName).Some? && tc.loadFrom(fileName).value.Types? {
        DecideAccepts(tc.loadFrom(fileName).value.types);
      }
    } else if tc.build(fileName).assembly.Types? {
      DecideAccepts(tc.build(fileName).assembly.types);
    }
  }

  predicate Distinct<T(==)>(s: seq<T>) {
    forall i, j :: 0 <= i < j < |s| ==> s[i] != s[j]
  }

  /** Where the dictionary enumerates its keys after adding `name`: a new key
      goes last, a replaced key keeps the slot it had. */
  function Insert(order: seq<string>, name: string): (r: seq<string>)
    ensures forall k :: k in r <==> k in order || k == name
    ensures name in order ==> r == order
    ensures name !in order ==> r == order + [name]
    ensures Distinct(order) ==> Distinct(r)
  {
    if name in order then order else order + [name]
  }

  /** The registry as a value: the name-to-extension map, the order in
      which its keys are enumerated, how many extension instances have been
      constructed, and the serials of every instance whose `Load` was
      called, in order. */
  datatype Registry = Registry(
    commands: map<string, Script>,
    order: seq<string>,
    instances: nat,
    loaded: seq<nat>)

  /** The enumeration order lists each key once, and every extension is
      registered under its own command name. */
  ghost predicate RegistryValid(r: Registry) {
    && Distinct(r.order)
    && (forall k :: k in r.commands <==> k in r.order)
    && (forall k :: k in r.commands ==> r.commands[k].name == k && r.commands[k].serial < r.instances)
  }

  /** One more instance constructed and its `Load` called. */
  function Constructed(r: Registry): Registry {
    r.(instances := r.instances + 1, loaded := r.loaded + [r.instances])
  }

  /** The registry after a verdict: an accepted type is constructed, loaded
      and registered under its command name, replacing any extension of
      that name; otherwise no name changes, and an instance whose `Load` ran
      before the failure is still counted. */
  function Register(r: Registry, v: Verdict): Registry {
    match v
    case Accept(t) =>
      var r1 := Constructed(r);
      r1.(commands := r.commands[t.commandName := Script(r.instances, t.commandName)],
          order := Insert(r.order, t.commandName))
    case Reject(_, ranLoad) => if ranLoad then Constructed(r) else r
    case Raise(ranLoad) => if ranLoad then Constructed(r) else r
  }

  /** What `Register` does: a valid registry stays valid; an acceptance adds
      or replaces exactly the type's command name; a failure leaves every
      name as it was; one more instance is counted and recorded as loaded
      exactly when the verdict accepts or says an instance's `Load` ran. */
  lemma RegisterSpec(r: Registry, v: Verdict)
    ensures var r' := Register(r, v); var ran := v.Accept? || v.ranLoad;
      && (RegistryValid(r) ==> RegistryValid(r'))
      && (!v.Accept? ==> r'.commands == r.commands && r'.order == r.order)
      && (v.Accept? ==>
        && r'.commands.Keys == r.commands.Keys + {v.t.commandName}
        && r'.commands[v.t.commandName] == Script(r.instances, v.t.commandName)
        && (forall k :: k in r.commands && k != v.t.commandName ==> r'.commands[k] == r.commands[k]))
      && r'.instances == (if ran then r.instances + 1 else r.instances)
      && r'.loaded == (if ran then r.loaded + [r.instances] else r.loaded)
  {
  }

  /** Last load wins: loading two extensions with the same command name
      leaves one registration, in the place the name first took, for the
      instance loaded second. */
  lemma LastLoadWins(r: Registry, t1: TypeDesc, t2: TypeDesc)
    requires RegistryValid(r)
    requires t1.commandName == t2.commandName
    ensures var r2 := Register(Register(r, Accept(t1)), Accept(t2));
      && r2.commands == r.commands[t2.commandName := Script(r.instances + 1, t2.commandName)]
      && r2.order == Insert(r.order, t1.commandName)
      && multiset(r2.order)[t2.commandName] == 1
  {
    var r2 := Register(Register(r, Accept(t1)), Accept(t2));
    DistinctOnce(r2.order, t2.commandName);
  }

  /** A key of a list without repetitions occurs in it exactly once. */
  lemma {:induction false} DistinctOnce<T>(s: seq<T>, x: T)
    requires Distinct(s) && x in s
    ensures multiset(s)[x] == 1
  {
    assert s == [s[0]] + s[1..];
    if s[0] == x {
      assert x !in s[1..] by {
        forall j | 0 <= j < |s[1..]| ensures s[1..][j] != x {
          assert s[1..][j] == s[j + 1];
        }
      }
    } else {
      assert Distinct(s[1..]) by {
        forall i, j | 0 <= i < j < |s[1..]| ensures s[1..][i] != s[1..][j] {
          assert s[1..][i] == s[i + 1] && s[1..][j] == s[j + 1];
        }
      }
      DistinctOnce(s[1..], x);
    }
  }

  class ScriptCompiler {
    /** The registry: command name to the extension handling it. */
    var scriptCommands: map<string, Script>
    /** The order in which the registry enumerates its keys. */
    var keyOrder: seq<string>
    /** How many extension instances have been constructed. */
    var instances: nat
    /** The serials of every instance whose `Load` was called, in order. */
    ghost var loaded: seq<nat>
    /** Every `RunScript` call, in order. */
    ghost var runs: seq<Run>

    ghost function State(): Registry
      reads this`scriptCommands, this`keyOrder, this`instances, this`loaded
    {
      Registry(scriptCommands, keyOrder, instances, loaded)
    }

    ghost predicate Valid()
      reads this`scriptCommands, this`keyOrder, this`instances, this`loaded
    {
      RegistryValid(State())
    }

    constructor ()
      ensures Valid()
      ensures State() == Registry(map[], [], 0, []) && runs == []
    {
      scriptCommands := map[];
      keyOrder := [];
      instances := 0;
      loaded := [];
      runs := [];
    }

    /** Hands `args` to the extension registered as `command`, if any. */
    method RunCommand(command: string, args: Option<seq<string>>) returns (found: bool)
      modifies this`runs
      ensures found <==> command in scriptCommands
      ensures runs == if found then old(runs) + [Run(scriptCommands[command], args)] else old(runs)
    {
      if command in scriptCommands {
        runs := runs + [Run(scriptCommands[command], args)];
        return true;
      }
      return false;
    }

    method HasCommands() returns (b: bool)
      ensures b <==> scriptCommands != map[]
      ensures Valid() ==> (b <==> keyOrder != [])
    {
      if Valid() && keyOrder != [] {
        assert keyOrder[0] in scriptCommands;
      }
      if |scriptCommands| > 0 {
        return true;
      }
      assert scriptCommands == map[];
      return false;
    }

    /** The registered command names in enumeration order, each once, or
        `None` when nothing is registered. */
    method GetCommands() returns (r: Option<seq<string>>)
      requires Valid()
      ensures r.None? <==> scriptCommands == map[]
      ensures r.Some? ==> r.value == keyOrder
      ensures r.None? ==> keyOrder == []
      ensures r.Some? ==> Distinct(r.value) && forall k :: k in r.value <==> k in scriptCommands
    {
      var has := HasCommands();
      if !has {
        return None;
      }
      return Some(keyOrder);
    }

    /** Reports on a build's diagnostics: whether it has errors, and the
        report text. */
    static method HasErrors(errors: seq<Diagnostic>) returns (hasErrors: bool, error: string)
      ensures hasErrors <==> AnyError(errors)
      ensures error == DiagnosticsMessage(errors)
    {
      if AnyWarning(errors) && !AnyError(errors) {
        error := ValidHeader;
        for i := 0 to |errors|
          invariant error == ValidHeader + Listing(errors[..i])
        {
          assert errors[..i + 1][..i] == errors[..i];
          error := error + errors[i].text + "\n";
        }
        assert errors[..|errors|] == errors;
        return false, error;
      } else if AnyError(errors) {
        error := InvalidHeader;
        for i := 0 to |errors|
          invariant error == InvalidHeader + Listing(errors[..i])
        {
          assert errors[..i + 1][..i] == errors[..i];
          error := error + errors[i].text + "\n";
        }
        assert errors[..|errors|] == errors;
        return true, error;
      }
      EmptyOrKind(errors);
      error := ValidMessage;
      return false, error;
    }

    /** Checks that a source file builds, without loading it: only `.cs`
        files are accepted. */
    static method TestScript(fileName: string, build: string -> BuildResult)
      returns (ok: bool, output: string)
      ensures !EndsWith(fileName, ".cs") ==> !ok && output == OnlyCs
      ensures EndsWith(fileName, ".cs") ==>
        ok == !AnyError(build(fileName).diagnostics)
          && output == DiagnosticsMessage(build(fileName).diagnostics)
    {
      if !EndsWith(fileName, ".cs") {
        output := OnlyCs;
        return false, output;
      }
      var results := build(fileName);
      var bad;
      bad, output := HasErrors(results.diagnostics);
      ok := !bad;
    }

    /** Invokes a constructor and calls `Load` on the new instance. */
    method Construct() returns (serial: nat)
      requires Valid()
      modifies this`instances, this`loaded
      ensures Valid()
      ensures State() == Constructed(old(State())) && serial == old(instances)
    {
      serial := instances;
      instances := instances + 1;
      loaded := loaded + [serial];
    }

    /** Registers instance `serial` under `name`, replacing any extension of
        that name. */
    method Bind(name: string, serial: nat)
      requires Valid() && serial < instances
      modifies this`scriptCommands, this`keyOrder
      ensures Valid()
      ensures scriptCommands == old(scriptCommands)[name := Script(serial, name)]
      ensures keyOrder == Insert(old(keyOrder), name)
    {
      var script := Script(serial, name);
      if name !in scriptCommands {
        scriptCommands := scriptCommands[name := script];
        keyOrder := keyOrder + [name];
      } else {
        // removing then re-adding reuses the freed slot
        scriptCommands := scriptCommands - {name};
        scriptCommands := scriptCommands[name := script];
      }
    }

    /** Looks for the extension type of an assembly and registers it; an
        exception leaves what ran before it done. */
    method ProcessScript(a: Assembly) returns (ok: bool, error: string, thrown: bool)
      requires Valid()
      modifies this`scriptCommands, this`keyOrder, this`instances, this`loaded
      ensures Valid()
      ensures State() == Register(old(State()), Process(a))
      ensures ok <==> Process(a).Accept?
      ensures thrown <==> Process(a).Raise?
      ensures error == ErrorText(Process(a))
    {
      if a.Unreadable? {
        // GetTypes throws
        return false, "", true;
      }
      var types := a.types;
      var i := 0;
      while i < |types|
        invariant 0 <= i <= |types|
        invariant Decide(types[i..]) == Decide(types)
        invariant unchanged(this)
      {
        assert types[i..][1..] == types[i + 1..];
        var t := types[i];
        if |t.interfaces| > 0 {
          if t.interfaces[0] == CommandScriptInterface {
            if t.publicNullaryCtor {
              ok, error, thrown := Instantiate(t);
              return;
            } else {
              return false, NoValidConstructor, false;
            }
          } else {
            return false, NotCommandScript, false;
          }
        }
        i := i + 1;
      }
      return false, "", false;
    }

    /** The extension type's constructor is invoked; a script instance is
        loaded and registered under the name it gives. */
    method Instantiate(t: TypeDesc) returns (ok: bool, error: string, thrown: bool)
      requires Valid() && |t.interfaces| > 0
      requires t.interfaces[0] == CommandScriptInterface && t.publicNullaryCtor
      modifies this`scriptCommands, this`keyOrder, this`instances, this`loaded
      ensures Valid()
      ensures State() == Register(old(State()), Judge(t))
      ensures ok <==> Judge(t).Accept?
      ensures thrown <==> Judge(t).Raise?
      ensures error == ErrorText(Judge(t))
    {
      match t.construct
      case CtorThrows =>
        return false, "", true;
      case YieldsNull =>
        return false, NotConstructed, false;
      case Builds =>
        var serial := Construct();
        if t.loadThrows || t.nameThrows {
          return false, "", true;
        }
        Bind(t.commandName, serial);
        return true, "", false;
    }

    /** Loads an extension from a `.dll` or builds it from source first. */
    method Load(fileName: string, tc: Toolchain) returns (ok: bool, errors: string, thrown: bool)
      requires Valid()
      modifies this`scriptCommands, this`keyOrder, this`instances, this`loaded
      ensures Valid()
      ensures State() == Register(old(State()), LoadVerdict(fileName, tc))
      ensures ok <==> LoadVerdict(fileName, tc).Accept?
      ensures thrown <==> LoadVerdict(fileName, tc).Raise?
      ensures errors == ErrorText(LoadVerdict(fileName, tc))
    {
      if EndsWith(fileName, ".dll") {
        var assembly := tc.loadFrom(fileName);
        if assembly.None? {
          return false, DllLoadFailed, false;
        }
        ok, errors, thrown := ProcessScript(assembly.value);
        if thrown {
          // the catch block
          return false, DllLoadFailed, false;
        }
      } else {
        var result := tc.build(fileName);
        var bad;
        bad, errors := HasErrors(result.diagnostics);
        if bad {
          return false, errors, false;
        }
        ok, errors, thrown := ProcessScript(result.assembly);
      }
    }
  }

  /** Loading the same extension twice: one registration remains, and it
      is the instance constructed second. */
  method ReloadScenario(name: string) returns (order: seq<string>, script: Script)
    ensures order == [name] && script == Script(1, name)
  {
    var sc := new ScriptCompiler();
    var t := TypeDesc([CommandScriptInterface], true, Builds, false, name, false);
    var ok1, e1, th1 := sc.ProcessScript(Types([t]));
    var ok2, e2, th2 := sc.ProcessScript(Types([t]));
    order := sc.keyOrder;
    script := sc.scriptCommands[name];
  }
}
