/** `main` after its argument loop: the controller check and the fixed
    sequence cgcreate, cgset, cgexec, cgdelete, with every external command
    recorded in a trace. */
module Tinybox {
  import opened Text
  import opened Config
  import opened Commands
  import opened Cli

  /** The exit status of the wrapper and the commands it issued, in order. */
  datatype RunResult = RunResult(code: int, trace: seq<Command>)

  /** The commands issued for a parsed invocation with at least one controller. */
  function Plan(o: Options, quote: string -> string): seq<Command>
  {
    [CreateCommand(o), SetCommand(o)] + ExecCommands(o, quote) + [DeleteCommand(o)]
  }

  function CreateCommand(o: Options): Command
  {
    Command(Argv(CreateArgv(Names(o.config), o.path, o.runas, o.runas)), false, None)
  }

  function SetCommand(o: Options): Command
  {
    Command(Argv(SetArgv(Names(o.config), o.config, o.path)), false, None)
  }

  /** cgexec is skipped for an empty command. */
  function ExecCommands(o: Options, quote: string -> string): seq<Command>
  {
    if o.cmd == [] then []
    else [Command(ShellLine(ExecLine(Names(o.config), o.path, o.cmd, Some(o.runas), quote)), true, NormaliseTimeout(o.timeout))]
  }

  function DeleteCommand(o: Options): Command
  {
    Command(Argv(DeleteArgv(Names(o.config), o.path)), false, None)
  }

  /** What one run of the wrapper does with `sys.argv`. */
  function Behaviour(argv: seq<string>, env: Env, files: map<string, Table>, quote: string -> string): RunResult
    requires |argv| >= 1
  {
    match Parse(argv, env, files)
    case Exit(code) => RunResult(code, [])
    case Proceed(o) =>
      if Names(o.config) == [] then RunResult(1, [])
      else RunResult(0, Plan(o, quote))
  }

  /** `main`, with the module-level configuration object it works on. */
  method Run(argv: seq<string>, env: Env, files: map<string, Table>, quote: string -> string)
    returns (code: int, trace: seq<Command>)
    requires |argv| >= 1
    ensures RunResult(code, trace) == Behaviour(argv, env, files, quote)
  {
    var cgroupConfig := new ConfigParser();
    var ex := new Executor();
    var parsed := ParseArgs(argv, env, files, cgroupConfig);
    if parsed.Exit? {
      return parsed.code, [];
    }
    var o := parsed.options;
    var controllers := cgroupConfig.Sections();
    if |controllers| == 0 {
      return 1, [];
    }
    assert cgroupConfig.table == o.config;
    CgroupCreate(ex, controllers, o.path, o.runas, o.runas);
    assert ex.trace == [CreateCommand(o)];
    CgroupSet(ex, controllers, o.path, cgroupConfig);
    assert ex.trace == [CreateCommand(o), SetCommand(o)];
    CgroupExec(ex, controllers, o.path, o.cmd, Some(o.runas), o.timeout, quote);
    assert ex.trace == [CreateCommand(o), SetCommand(o)] + ExecCommands(o, quote);
    CgroupDelete(ex, controllers, o.path);
    assert ex.trace == Plan(o, quote);
    return 0, ex.trace;
  }

  // ---------------------------------------------------------------- counting tools

  /** Whether a command runs `tool`: its first argument, or the first word of its shell line. */
  predicate Calls(c: Command, tool: string)
  {
    match c.line
    case Argv(args) => |args| > 0 && args[0] == tool
    case ShellLine(line) => StartsWith(line, tool + " ")
  }

  function CountCalls(trace: seq<Command>, tool: string): nat
  {
    if trace == [] then 0
    else (if Calls(trace[0], tool) then 1 else 0) + CountCalls(trace[1..], tool)
  }

  lemma {:induction false} CountCallsAppend(a: seq<Command>, b: seq<Command>, tool: string)
    ensures CountCalls(a + b, tool) == CountCalls(a, tool) + CountCalls(b, tool)
  {
    if a == [] {
      assert a + b == b;
    } else {
      assert (a + b)[0] == a[0] && (a + b)[1..] == a[1..] + b;
      CountCallsAppend(a[1..], b, tool);
    }
  }

  /** The shell line of cgexec runs cgexec, and neither cgcreate nor cgdelete. */
  lemma ExecLineCalls(line: string, rest: string)
    requires line == "cgexec " + rest
    ensures StartsWith(line, "cgexec ")
    ensures !StartsWith(line, "cgcreate ") && !StartsWith(line, "cgdelete ")
  {
    assert line[2] == 'e';
    assert "cgcreate "[2] == 'c' && "cgdelete "[2] == 'd';
  }

  lemma {:induction false} CountCallsSingle(c: Command, tool: string)
    ensures CountCalls([c], tool) == if Calls(c, tool) then 1 else 0
  {
    assert [c][1..] == [];
  }

  lemma CountPlan(o: Options, quote: string -> string, tool: string)
    ensures CountCalls(Plan(o, quote), tool)
         == CountCalls([CreateCommand(o)], tool) + CountCalls([SetCommand(o)], tool)
            + CountCalls(ExecCommands(o, quote), tool) + CountCalls([DeleteCommand(o)], tool)
  {
    var head := [CreateCommand(o), SetCommand(o)];
    assert head == [CreateCommand(o)] + [SetCommand(o)];
    CountCallsAppend(head + ExecCommands(o, quote), [DeleteCommand(o)], tool);
    CountCallsAppend(head, ExecCommands(o, quote), tool);
    CountCallsAppend([CreateCommand(o)], [SetCommand(o)], tool);
  }

  lemma ExecCommandsCalls(o: Options, quote: string -> string)
    ensures CountCalls(ExecCommands(o, quote), "cgcreate") == 0
    ensures CountCalls(ExecCommands(o, quote), "cgdelete") == 0
    ensures CountCalls(ExecCommands(o, quote), "cgexec") == if o.cmd == [] then 0 else 1
  {
    if o.cmd != [] {
      var line := ExecLine(Names(o.config), o.path, o.cmd, Some(o.runas), quote);
      ExecLineCalls(line, line[7..]);
      var c := ExecCommands(o, quote)[0];
      CountCallsSingle(c, "cgcreate");
      CountCallsSingle(c, "cgdelete");
      CountCallsSingle(c, "cgexec");
    }
  }

  lemma PlanCalls(o: Options, quote: string -> string)
    ensures var p := Plan(o, quote);
      && CountCalls(p, "cgcreate") == 1 && CountCalls(p, "cgdelete") == 1
      && CountCalls(p, "cgexec") == (if o.cmd == [] then 0 else 1)
      && Calls(p[0], "cgcreate") && Calls(p[|p| - 1], "cgdelete")
  {
    ExecCommandsCalls(o, quote);
    CountPlan(o, quote, "cgcreate");
    CountPlan(o, quote, "cgdelete");
    CountPlan(o, quote, "cgexec");
    CountCallsSingle(CreateCommand(o), "cgcreate");
    CountCallsSingle(SetCommand(o), "cgcreate");
    CountCallsSingle(DeleteCommand(o), "cgcreate");
    CountCallsSingle(CreateCommand(o), "cgdelete");
    CountCallsSingle(SetCommand(o), "cgdelete");
    CountCallsSingle(DeleteCommand(o), "cgdelete");
    CountCallsSingle(CreateCommand(o), "cgexec");
    CountCallsSingle(SetCommand(o), "cgexec");
    CountCallsSingle(DeleteCommand(o), "cgexec");
  }

  // ---------------------------------------------------------------- whole run

  /** In the trace of a run in which no call raises, cgcreate is followed by
      exactly one cgdelete: the trace is empty, or it starts with the only
      cgcreate and ends with the only cgdelete, with at most one cgexec in
      between. A call that raises ends the run early; that is not modelled. */
  lemma CreateDeletePaired(argv: seq<string>, env: Env, files: map<string, Table>, quote: string -> string)
    requires |argv| >= 1
    ensures var b := Behaviour(argv, env, files, quote);
      && CountCalls(b.trace, "cgcreate") == CountCalls(b.trace, "cgdelete") <= 1
      && CountCalls(b.trace, "cgexec") <= 1
      && (b.trace != [] ==> Calls(b.trace[0], "cgcreate") && Calls(b.trace[|b.trace| - 1], "cgdelete"))
  {
    if Parse(argv, env, files).Proceed? {
      PlanCalls(Parse(argv, env, files).options, quote);
    }
  }

  /** The wrapper exits with 0 or 1; a failure issues no command at all; a
      run that issues nothing yet exits 0 was asked for `-h`; and after a
      complete parse, commands are issued exactly when there is a section. */
  lemma RunExitCodes(argv: seq<string>, env: Env, files: map<string, Table>, quote: string -> string)
    requires |argv| >= 1
    ensures var b := Behaviour(argv, env, files, quote);
      && (b.code == 0 || b.code == 1)
      && (b.code != 0 ==> b.trace == [])
      && (Parse(argv, env, files).Exit? ==> b.trace == [])
      && (b.code == 0 && b.trace == [] ==> exists j :: 1 <= j < |argv| && (argv[j] == "-h" || argv[j] == "--help"))
      && (Parse(argv, env, files).Proceed? ==>
            (b.trace == [] <==> Names(Parse(argv, env, files).options.config) == [])
            && (b.trace == [] ==> b.code == 1))
  {
    ExitCodes(argv, 1, Initial(env), files);
  }

  /** An invocation with no `-c`, no `-c.` token and no `-t` among its
      options issues no command and exits 1, whatever its command holds
      (`tinybox -- sh -c x` included). */
  lemma NoLimitsNoCommands(argv: seq<string>, env: Env, files: map<string, Table>, quote: string -> string)
    requires |argv| >= 1
    ensures var r := Parse(argv, env, files);
      r.Proceed? && (forall j :: 1 <= j < |argv| - |r.options.cmd| ==> !Configures(argv[j])) ==>
        Behaviour(argv, env, files, quote) == RunResult(1, [])
  {
    UnconfiguredStays(argv, 1, Initial(env), files);
  }

  /** `tinybox -- <cmd>` sets no limit, whatever the command's words are
      (`sh -c x` for one), so it exits 1 and issues nothing. */
  lemma CommandAloneExits(prog: string, cmd: seq<string>, env: Env, files: map<string, Table>, quote: string -> string)
    ensures Behaviour([prog, "--"] + cmd, env, files, quote) == RunResult(1, [])
  {
    var argv := [prog, "--"] + cmd;
    assert argv[1] == "--" && argv[2..] == cmd;
    assert StepAt(argv, 1, Initial(env), files) == Separator(2);
  }

  /** `-t` alone passes the controller check: a parsed timeout always brings
      a `cpuacct` controller, so the commands are issued. */
  lemma TimeoutSuffices(argv: seq<string>, env: Env, files: map<string, Table>, quote: string -> string)
    requires |argv| >= 1
    requires Parse(argv, env, files).Proceed? && Parse(argv, env, files).options.timeout.Some?
    ensures "cpuacct" in Names(Parse(argv, env, files).options.config)
    ensures Behaviour(argv, env, files, quote).code == 0 && Behaviour(argv, env, files, quote).trace != []
  {
    ConfigInvariant(argv, 1, Initial(env), files);
  }

  /** cgcreate, cgexec and cgdelete name the same group `controllers:path`,
      with the controllers in section order, and cgset the same path; only
      cgexec goes through the shell and carries the timeout, never a zero one. */
  lemma PlanTargetsOneGroup(argv: seq<string>, env: Env, files: map<string, Table>, quote: string -> string)
    requires |argv| >= 1
    ensures var b := Behaviour(argv, env, files, quote);
      b.trace != [] ==>
        var o := Parse(argv, env, files).options;
        var spec := GroupSpec(Names(o.config), o.path);
        && |b.trace| == (if o.cmd == [] then 3 else 4)
        && b.trace[0] == Command(Argv(["cgcreate", "-t", o.runas + ":root", "-a", o.runas + ":" + o.runas, "-g", spec]), false, None)
        && b.trace[1].line.Argv? && b.trace[1].line.args[|b.trace[1].line.args| - 1] == o.path
        && b.trace[|b.trace| - 1] == Command(Argv(["cgdelete", "-r", "-g", spec]), false, None)
        && (o.cmd != [] ==>
              (b.trace[2].shell && b.trace[2].line.ShellLine?
               && StartsWith(b.trace[2].line.line, "cgexec -g " + spec + " --sticky ")
               && b.trace[2].timeout == NormaliseTimeout(o.timeout)))
        && forall j :: 0 <= j < |b.trace| && j != 2 ==> !b.trace[j].shell && b.trace[j].timeout == None
  {
    var b := Behaviour(argv, env, files, quote);
    if b.trace != [] {
      var o := Parse(argv, env, files).options;
      var controllers := Names(o.config);
      SetArgvShape(controllers, o.config, o.path);
      if o.cmd != [] {
        var spec := GroupSpec(controllers, o.path);
        var line := ExecLine(controllers, o.path, o.cmd, Some(o.runas), quote);
        var prefix := "cgexec -g " + spec + " --sticky ";
        assert line == prefix + Join(["su", o.runas, "--preserve-environment", "-c", quote(Join(o.cmd, " "))], " ");
        assert line[..|prefix|] == prefix;
      }
    }
  }

  /** The command always runs through `su`, as the `-r` user or else (no
      `-r` among the options, whatever the command holds) as `$USER`, with the caller's environment, and only when it is not empty. */
  lemma ExecRunsThroughSu(argv: seq<string>, env: Env, files: map<string, Table>, quote: string -> string)
    requires |argv| >= 1
    requires Parse(argv, env, files).Proceed?
    requires Names(Parse(argv, env, files).options.config) != []
    ensures var o := Parse(argv, env, files).options;
      var b := Behaviour(argv, env, files, quote);
      && (CountCalls(b.trace, "cgexec") == 1 <==> o.cmd != [])
      && (o.cmd != [] ==> b.trace[2].line == ShellLine(
            "cgexec -g " + GroupSpec(Names(o.config), o.path) + " --sticky su " + o.runas
            + " --preserve-environment -c " + quote(Join(o.cmd, " "))))
      && ((forall j :: 1 <= j < |argv| - |o.cmd| ==> argv[j] != "-r" && argv[j] != "--run-as") ==> o.runas == env.user)
  {
    var o := Parse(argv, env, files).options;
    PlanCalls(o, quote);
    Defaults(argv, env, files);
    ExecLineSu(Names(o.config), o.path, o.cmd, o.runas, quote);
  }

  /** cgset carries exactly the configuration: every `-r` parameter is an
      entry under one of the controllers, and every entry has its `-r`. */
  lemma CgsetCarriesConfiguration(argv: seq<string>, env: Env, files: map<string, Table>, quote: string -> string)
    requires |argv| >= 1
    ensures var b := Behaviour(argv, env, files, quote);
      b.trace != [] ==>
        var o := Parse(argv, env, files).options;
        var a := Assignments(Names(o.config), o.config);
        && b.trace[1].line == Argv(["cgset"] + Flags(a) + [o.path])
        && |b.trace[1].line.args| == 2 + 2 * |a|
        && (forall x :: x in a ==> Lookup(o.config, x.controller, x.key) == Some(x.value))
        && (forall c, k :: Lookup(o.config, c, k).Some? ==> Assignment(c, k, Lookup(o.config, c, k).value) in a)
  {
    var b := Behaviour(argv, env, files, quote);
    if b.trace != [] {
      var o := Parse(argv, env, files).options;
      assert b.trace[1] == SetCommand(o);
      ConfigInvariant(argv, 1, Initial(env), files);
      SetCommandExact(o);
    }
  }

  lemma SetCommandExact(o: Options)
    requires WellFormed(o.config)
    ensures var a := Assignments(Names(o.config), o.config);
      && SetCommand(o).line == Argv(["cgset"] + Flags(a) + [o.path])
      && |SetCommand(o).line.args| == 2 + 2 * |a|
      && (forall x :: x in a ==> Lookup(o.config, x.controller, x.key) == Some(x.value))
      && (forall c, k :: Lookup(o.config, c, k).Some? ==> Assignment(c, k, Lookup(o.config, c, k).value) in a)
  {
    AssignmentsExact(o.config);
    SetArgvShape(Names(o.config), o.config, o.path);
  }

  // ---------------------------------------------------------------- two inline limits

  /** `tinybox -c.<c1>.<k1>=<v1> -c.<c2>.<k2>=<v2> -- cmd...` for two
      different controllers (for instance `-c.cpu.shares=500
      -c.memory.limit_in_bytes=1000000 -- /bin/true`): the configuration
      holds the two sections in that order, cgset sets `c1.k1=v1` then
      `c2.k2=v2` on `tbox/task_<pid>`, and the run exits 0. */
  lemma TwoInlineLimits(prog: string, p1: Param, p2: Param, cmd: seq<string>,
                        env: Env, files: map<string, Table>, quote: string -> string)
    requires Unambiguous(p1) && Unambiguous(p2) && p1.controller != p2.controller
    ensures var argv := [prog, InlineToken(p1), InlineToken(p2), "--"] + cmd;
      var t := [Section(p1.controller, [Item(p1.key, p1.value)]), Section(p2.controller, [Item(p2.key, p2.value)])];
      var o := Options(DefaultPath(env.pid), env.user, None, t, cmd);
      && Parse(argv, env, files) == Proceed(o)
      && Behaviour(argv, env, files, quote) == RunResult(0, Plan(o, quote))
      && SetCommand(o).line == Argv(["cgset", "-r", Render(Assignment(p1.controller, p1.key, p1.value)),
                                     "-r", Render(Assignment(p2.controller, p2.key, p2.value)), DefaultPath(env.pid)])
  {
    var argv := [prog, InlineToken(p1), InlineToken(p2), "--"] + cmd;
    var t := [Section(p1.controller, [Item(p1.key, p1.value)]), Section(p2.controller, [Item(p2.key, p2.value)])];
    var o := Options(DefaultPath(env.pid), env.user, None, t, cmd);
    TwoInlineParse(prog, p1, p2, cmd, env, files);
    assert Names(t) != [];
    TwoSectionsFlags(p1, p2);
  }

  lemma TwoInlineParse(prog: string, p1: Param, p2: Param, cmd: seq<string>, env: Env, files: map<string, Table>)
    requires Unambiguous(p1) && Unambiguous(p2) && p1.controller != p2.controller
    ensures Parse([prog, InlineToken(p1), InlineToken(p2), "--"] + cmd, env, files)
         == Proceed(Options(DefaultPath(env.pid), env.user, None,
              [Section(p1.controller, [Item(p1.key, p1.value)]), Section(p2.controller, [Item(p2.key, p2.value)])], cmd))
  {
    var argv := [prog, InlineToken(p1), InlineToken(p2), "--"] + cmd;
    assert argv[1] == InlineToken(p1) && argv[2] == InlineToken(p2) && argv[3] == "--" && argv[4..] == cmd;
    InlineParamComplete(p1);
    InlineParamComplete(p2);
    var st0 := Initial(env);
    var st1 := st0.(config := ApplyParam(st0.config, p1));
    var st2 := st1.(config := ApplyParam(st1.config, p2));
    InlineStep(argv, 1, st0, files);
    InlineStep(argv, 2, st1, files);
    SeparatorStep(argv, 3, st2, files);
    TwoSectionsBuilt(p1, p2);
  }

  lemma TwoSectionsBuilt(p1: Param, p2: Param)
    requires p1.controller != p2.controller
    ensures ApplyParam(ApplyParam([], p1), p2)
         == [Section(p1.controller, [Item(p1.key, p1.value)]), Section(p2.controller, [Item(p2.key, p2.value)])]
  {
    var t1 := [Section(p1.controller, [Item(p1.key, p1.value)])];
    assert WithSection([], p1.controller) == [Section(p1.controller, [])];
    assert ApplyParam([], p1) == t1;
    assert Names(t1) == [p1.controller];
    var t2 := t1 + [Section(p2.controller, [])];
    assert WithSection(t1, p2.controller) == t2;
    assert t2[1..] == [Section(p2.controller, [])] && t2[1..][1..] == [];
    assert SetItem(t2[1..], p2.controller, p2.key, p2.value) == [Section(p2.controller, [Item(p2.key, p2.value)])];
    assert SetItem(t2, p2.controller, p2.key, p2.value) == [t2[0]] + SetItem(t2[1..], p2.controller, p2.key, p2.value);
  }

  lemma TwoSectionsFlags(p1: Param, p2: Param)
    requires p1.controller != p2.controller
    ensures var t := [Section(p1.controller, [Item(p1.key, p1.value)]), Section(p2.controller, [Item(p2.key, p2.value)])];
      && Names(t) == [p1.controller, p2.controller]
      && Flags(Assignments(Names(t), t))
         == ["-r", Render(Assignment(p1.controller, p1.key, p1.value)), "-r", Render(Assignment(p2.controller, p2.key, p2.value))]
  {
    var t := [Section(p1.controller, [Item(p1.key, p1.value)]), Section(p2.controller, [Item(p2.key, p2.value)])];
    var a1 := Assignment(p1.controller, p1.key, p1.value);
    var a2 := Assignment(p2.controller, p2.key, p2.value);
    assert t[1..][1..] == [];
    assert Names(t[1..]) == [p2.controller] + Names(t[1..][1..]);
    assert Names(t) == [p1.controller, p2.controller];
    assert ItemsOf(t, p2.controller) == [Item(p2.key, p2.value)];
    assert Assignments([p2.controller], t) == [a2] by {
      assert [p2.controller][1..] == [];
    }
    assert Assignments(Names(t), t) == [a1, a2] by {
      assert Names(t)[1..] == [p2.controller];
    }
    assert [a1, a2][1..] == [a2] && [a2][1..] == [];
    assert Flags([a2]) == ["-r", Render(a2)] + Flags([]);
    assert Flags([a1, a2]) == ["-r", Render(a1)] + Flags([a2]);
  }
}
